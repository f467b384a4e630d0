/** The small moves that session code is made of, each with the proof that it keeps the
    invariant.  The functions of `SessionCore`, `SessionSend` and `SessionReceive` are compositions of these. */
module SessionMoves {
  import opened Base
  import opened SessionTypes
  import opened SessionInvariant

  /** Replace the record of an open stream. */
  function PutStream(s: Session, id: int, st: Stream): Session {
    s.(streams := s.streams[id := st])
  }

  /** Fields other than the deferred item may change, if flags only rise and the stream
      stays in order. */
  lemma PutStreamKeeps(s: Session, id: int, st: Stream)
    requires Inv(s) && id in s.streams && StreamOk(id, st)
    requires st.deferred == s.streams[id].deferred
    requires s.streams[id].shutRd ==> st.shutRd
    requires s.streams[id].shutWr ==> st.shutWr
    requires st.state == s.streams[id].state || StateOk(s, id, st.state)
    ensures Inv(PutStream(s, id, st))
  {
    var r := PutStream(s, id, st);
    assert r.streams.Keys == s.streams.Keys;
    forall mine: bool ensures Own(r.server, r.streams, mine) == Own(s.server, s.streams, mine) {}
    forall n: nat ensures Holders(r, n) == Holders(s, n) {
      DeferringUpdate(s.streams, id, st, n);
    }
    EventsEvolve(s, r);
  }

  /** Append an event that concerns nothing in the session. */
  lemma LogKeeps(s: Session, e: Event)
    requires Inv(s) && EventOk(s, e) && !e.Freed? && !e.Sent? && !e.Enter?
    requires forall a <- s.log :: MayFollow(a, e)
    requires e.PeerFin? ==> s.receiving.None? || s.receiving.value.ignored || s.receiving.value.id != e.id
    ensures Inv(s.(log := s.log + [e]))
  {
    var r := s.(log := s.log + [e]);
    LogAppend(s.log, e);
    forall n: nat ensures Holders(r, n) == Holders(s, n) {
      CountFreedAppend(s.log, e, n);
    }
    forall x | x in r.log ensures EventOk(r, x) {
      assert EventOk(s, x);
    }
    QuietAppend(s, r, e);
  }

  /** An event that is no frame sent leaves the history of the streams as it is. */
  lemma QuietAppend(s: Session, r: Session, e: Event)
    requires HistoryOk(s) && !e.Sent? && !e.Enter? && r.log == s.log + [e] && r.streams.Keys <= s.streams.Keys
    requires r.server == s.server && r.active == s.active && forall id <- r.streams :: r.streams[id].state == s.streams[id].state
    ensures HistoryOk(r) && forall id :: HasBegun(r.log, id) <==> HasBegun(s.log, id)
  {
    StartsWith(s.log, e);
    forall id | id in r.streams ensures InLog(r.log, id) && StateOk(r, id, r.streams[id].state) {
      InLogAppend(s.log, e, id);
      assert StateOk(s, id, s.streams[id].state);
    }
  }

  lemma StartsWith(log: seq<Event>, e: Event)
    ensures forall id :: HasBegun(log + [e], id) <==> HasBegun(log, id) || (e.Sent? && e.frame.Begins() && e.frame.id == id)
    ensures LogBegun(log) && (e.Sent? && e.frame.Follows() ==> HasBegun(log, e.frame.id)) ==> LogBegun(log + [e])
  {
    assert e in log + [e];
    forall id ensures HasBegun(log + [e], id) <==> HasBegun(log, id) || (e.Sent? && e.frame.Begins() && e.frame.id == id) {
      if HasBegun(log, id) {
        var x :| x in log && x.Sent? && x.frame.Begins() && x.frame.id == id;
        assert x in log + [e];
      }
    }
  }

  // ---------- opening and closing ----------

  /** Everything but the map entry and the counters is untouched; a deferred item goes too. */
  function RemoveStream(s: Session, id: int): Session
    requires id in s.streams
  {
    var d := s.streams[id].deferred;
    s.(streams := s.streams - {id},
       numOutgoing := s.numOutgoing - (if IsMine(s.server, id) then 1 else 0),
       numIncoming := s.numIncoming - (if IsMine(s.server, id) then 0 else 1),
       log := s.log + if d.Some? then [Freed(d.value.num)] else [])
  }

  lemma RemoveStreamKeeps(s: Session, id: int)
    requires Inv(s) && id in s.streams
    ensures Inv(RemoveStream(s, id))
  {
    var r := RemoveStream(s, id);
    var d := s.streams[id].deferred;
    OwnRemove(s.server, s.streams, id, true);
    OwnRemove(s.server, s.streams, id, false);
    if d.Some? {
      LogAppend(s.log, Freed(d.value.num));
    } else {
      assert r.log == s.log;
    }
    if d.Some? {
      QuietAppend(s, r, Freed(d.value.num));
    }
    forall n: nat ensures Holders(r, n) == Holders(s, n) {
      DeferringRemove(s.streams, id, n);
      if d.Some? {
        CountFreedAppend(s.log, Freed(d.value.num), n);
      }
    }
    EventsEvolve(s, r);
  }

  /** spdylay_session_close_stream. */
  function CloseStream(s: Session, id: int): (r: Session)
    ensures Inv(s) ==> Inv(r)
    ensures id !in r.streams && r.streams == s.streams - {id}
    ensures r == s.(streams := r.streams, numOutgoing := r.numOutgoing, numIncoming := r.numIncoming, log := r.log)
  {
    if id !in s.streams then
      assert s.streams - {id} == s.streams;
      s
    else
      var r := RemoveStream(s, id);
      CloseStreamKeeps(s, id);
      if s.streams[id].state.Initial? then r else r.(log := r.log + [Closed(id)])
  }

  lemma CloseStreamKeeps(s: Session, id: int)
    requires id in s.streams
    ensures Inv(s) ==> Inv(RemoveStream(s, id))
    ensures Inv(s) ==> var r := RemoveStream(s, id); Inv(r.(log := r.log + [Closed(id)]))
  {
    if Inv(s) {
      RemoveStreamKeeps(s, id);
      var r := RemoveStream(s, id);
      forall a | a in r.log ensures MayFollow(a, Closed(id)) {
        assert a in s.log ==> EventOk(s, a);
      }
      LogKeeps(r, Closed(id));
    }
  }

  function NewStream(s: Session, pri: nat, state: StreamState): Stream {
    Stream(pri, state, false, false, None, false, ToInt32(s.cfg.remoteInit), 0, 0, 0)
  }

  /** spdylay_session_open_stream.  The counters move even when the map refuses the ID. */
  function OpenStream(s: Session, id: int, pri: nat, state: StreamState): Session {
    var r := s.(numOutgoing := s.numOutgoing + (if IsMine(s.server, id) then 1 else 0),
                numIncoming := s.numIncoming + (if IsMine(s.server, id) then 0 else 1));
    if id in s.streams then r
    else r.(streams := s.streams[id := NewStream(s, pri, state)], log := s.log + [Enter(id)])
  }

  /** No stream and no event has the ID, later ones of its side neither, and no GOAWAY was sent. */
  predicate Untouched(s: Session, id: int) {
    id !in s.streams && !s.goaway.sent && forall e <- s.log :: NotOf(e, id)
  }

  predicate NotOf(e: Event, id: int) {
    match e
    case Enter(j) => j % 2 == id % 2 ==> j < id
    case Sent(f) => f.Begins() || f.Follows() ==> f.id != id
    case Closed(j) => j != id
    case PeerFin(j) => j != id
    case _ => true
  }

  lemma UnusedUntouched(s: Session, id: int)
    requires Inv(s) && !Used(s, id) && 0 < id <= INT32_MAX && !s.goaway.sent
    ensures Untouched(s, id)
  {
    forall e | e in s.log ensures NotOf(e, id) {
      assert EventOk(s, e);
    }
  }

  /** An ID that is taken and untouched can be opened: by us while its SYN_STREAM is being sent. */
  lemma OpenStreamKeeps(s: Session, id: int, pri: nat, state: StreamState)
    requires Inv(s) && Used(s, id) && Untouched(s, id)
    requires if IsMine(s.server, id) then Beginning(s.active, id) else state.Opening?
    ensures id !in s.streams && Inv(OpenStream(s, id, pri, state))
  {
    var r := OpenStream(s, id, pri, state);
    var st := NewStream(s, pri, state);
    OwnInsert(s.server, s.streams, id, st, true);
    OwnInsert(s.server, s.streams, id, st, false);
    forall a | a in s.log ensures MayFollow(a, Enter(id)) && EventOk(r, a) {
      assert NotOf(a, id) && EventOk(s, a);
    }
    LogAppend(s.log, Enter(id));
    EnterHistory(s, r, id);
    forall n: nat ensures Holders(r, n) == Holders(s, n) {
      DeferringInsert(s.streams, id, st, n);
      CountFreedAppend(s.log, Enter(id), n);
    }
  }

  lemma EnterHistory(s: Session, r: Session, id: int)
    requires HistoryOk(s) && Untouched(s, id)
    requires r.log == s.log + [Enter(id)] && r.streams.Keys == s.streams.Keys + {id}
    requires forall j <- s.streams :: r.streams[j].state == s.streams[j].state
    requires r.server == s.server && r.active == s.active
    requires if IsMine(s.server, id) then Beginning(s.active, id) else r.streams[id].state.Opening?
    ensures HistoryOk(r) && forall j :: HasBegun(r.log, j) <==> HasBegun(s.log, j)
  {
    StartsWith(s.log, Enter(id));
    assert !HasBegun(s.log, id) by {
      assert forall e <- s.log :: NotOf(e, id);
    }
    forall j | j in r.streams ensures InLog(r.log, j) && StateOk(r, j, r.streams[j].state) {
      InLogAppend(s.log, Enter(id), j);
      assert j in s.streams ==> StateOk(s, j, s.streams[j].state);
    }
  }

  // ---------- items ----------

  /** A freshly numbered item enters the queue for its kind. */
  function Accept(s: Session, pri: int, f: Frame): (r: Session)
    ensures Inv(s) && ItemOk(Item(s.nextSeq, pri, f)) ==> Inv(r)
    ensures r == s.(nextSeq := s.nextSeq + 1, obPq := r.obPq, obSsPq := r.obSsPq)
  {
    var item := Item(s.nextSeq, pri, f);
    AcceptKeeps(s, item);
    if f.SynStream?
    then s.(nextSeq := s.nextSeq + 1, obSsPq := Enqueue(s.obSsPq, item))
    else s.(nextSeq := s.nextSeq + 1, obPq := Enqueue(s.obPq, item))
  }

  /** An item that is in no queue can be queued in order. */
  lemma NewInQueues(s: Session, x: Item)
    requires QueuesOk(s) && ItemOk(x) && CountItem(s.obPq, x.num) == CountItem(s.obSsPq, x.num) == 0
    ensures Sorted(Enqueue(s.obPq, x)) && Sorted(Enqueue(s.obSsPq, x))
    ensures !x.frame.SynStream? ==> forall y <- Enqueue(s.obPq, x) :: NotSyn(y)
    ensures x.frame.SynStream? ==> forall y <- Enqueue(s.obSsPq, x) :: y.frame.SynStream? && ItemOk(y)
  {
    CountZero(s.obPq, x.num);
    CountZero(s.obSsPq, x.num);
    EnqueueSorted(s.obPq, x);
    EnqueueSorted(s.obSsPq, x);
    EnqueueMembers(s.obPq, x);
    EnqueueMembers(s.obSsPq, x);
  }

  lemma AcceptKeeps(s: Session, item: Item)
    requires item.num == s.nextSeq
    ensures Inv(s) && ItemOk(item) && item.frame.SynStream? ==> Inv(s.(nextSeq := s.nextSeq + 1, obSsPq := Enqueue(s.obSsPq, item)))
    ensures Inv(s) && NotSyn(item) ==> Inv(s.(nextSeq := s.nextSeq + 1, obPq := Enqueue(s.obPq, item)))
  {
    if Inv(s) && ItemOk(item) && item.frame.SynStream? {
      AcceptSyn(s, item);
    } else if Inv(s) && NotSyn(item) {
      AcceptControl(s, item);
    }
  }

  lemma AcceptControl(s: Session, item: Item)
    requires item.num == s.nextSeq && Inv(s) && NotSyn(item)
    ensures Inv(s.(nextSeq := s.nextSeq + 1, obPq := Enqueue(s.obPq, item)))
  {
    assert Holders(s, s.nextSeq) == 0;
    NewInQueues(s, item);
    var r := s.(nextSeq := s.nextSeq + 1, obPq := Enqueue(s.obPq, item));
    forall n: nat ensures Holders(r, n) == Holders(s, n) + if n == s.nextSeq then 1 else 0 {
      EnqueueCounts(s.obPq, item, n);
    }
    EventsEvolve(s, r);
  }

  lemma AcceptSyn(s: Session, item: Item)
    requires item.num == s.nextSeq && Inv(s) && ItemOk(item) && item.frame.SynStream?
    ensures Inv(s.(nextSeq := s.nextSeq + 1, obSsPq := Enqueue(s.obSsPq, item)))
  {
    assert Holders(s, s.nextSeq) == 0;
    NewInQueues(s, item);
    var r := s.(nextSeq := s.nextSeq + 1, obSsPq := Enqueue(s.obSsPq, item));
    forall n: nat ensures Holders(r, n) == Holders(s, n) + if n == s.nextSeq then 1 else 0 {
      EnqueueCounts(s.obSsPq, item, n);
    }
    EventsEvolve(s, r);
  }

  /** session_send takes the top of a queue. */
  lemma TakeKeeps(s: Session, syn: bool)
    requires Inv(s) && s.hand.None?
    requires if syn then s.obSsPq != [] else s.obPq != []
    ensures Inv(if syn then s.(hand := Some(s.obSsPq[0]), obSsPq := s.obSsPq[1..])
                else s.(hand := Some(s.obPq[0]), obPq := s.obPq[1..]))
  {
    var r := if syn then s.(hand := Some(s.obSsPq[0]), obSsPq := s.obSsPq[1..])
             else s.(hand := Some(s.obPq[0]), obPq := s.obPq[1..]);
    forall n: nat ensures Holders(r, n) == Holders(s, n) {}
    if syn {
      assert s.obSsPq[0] in s.obSsPq && forall x :: x in s.obSsPq[1..] ==> x in s.obSsPq;
    } else {
      assert s.obPq[0] in s.obPq && forall x :: x in s.obPq[1..] ==> x in s.obPq;
    }
    EventsEvolve(s, r);
  }

  /** The held item is deallocated. */
  function Free(s: Session): (r: Session)
    requires s.hand.Some?
    ensures Inv(s) ==> Inv(r)
  {
    FreeKeeps(s);
    s.(hand := None, log := s.log + [Freed(s.hand.value.num)])
  }

  lemma FreeKeeps(s: Session)
    requires s.hand.Some?
    ensures Inv(s) ==> Inv(s.(hand := None, log := s.log + [Freed(s.hand.value.num)]))
  {
    if Inv(s) {
      var e := Freed(s.hand.value.num);
      var r := s.(hand := None, log := s.log + [e]);
      LogAppend(s.log, e);
      QuietAppend(s, r, e);
      forall n: nat ensures Holders(r, n) == Holders(s, n) {
        CountFreedAppend(s.log, e, n);
      }
      EventsEvolve(s, r);
    }
  }

  /** The held DATA item goes back to its queue. */
  function PutBack(s: Session): (r: Session)
    requires s.hand.Some? && s.hand.value.frame.Data?
    ensures Inv(s) ==> Inv(r)
  {
    PutBackKeeps(s);
    s.(hand := None, obPq := Enqueue(s.obPq, s.hand.value))
  }

  lemma PutBackKeeps(s: Session)
    requires s.hand.Some? && s.hand.value.frame.Data?
    ensures Inv(s) ==> Inv(s.(hand := None, obPq := Enqueue(s.obPq, s.hand.value)))
  {
    if Inv(s) {
      var r := s.(hand := None, obPq := Enqueue(s.obPq, s.hand.value));
      assert Holders(s, s.hand.value.num) == 1;
      NewInQueues(s, s.hand.value);
      forall n: nat ensures Holders(r, n) == Holders(s, n) {
        EnqueueCounts(s.obPq, s.hand.value, n);
      }
      EventsEvolve(s, r);
    }
  }

  /** spdylay_stream_defer_data.  Its assertion is the precondition on `deferred`. */
  function Defer(s: Session, id: int, flow: bool): (r: Session)
    requires s.hand.Some? && id in s.streams && s.streams[id].deferred.None?
    ensures Inv(s) && CanDefer(s, id, flow) ==> Inv(r)
  {
    DeferKeeps(s, id, flow);
    PutStream(s, id, s.streams[id].(deferred := s.hand, deferredFlow := flow)).(hand := None)
  }

  predicate CanDefer(s: Session, id: int, flow: bool)
    requires s.hand.Some? && id in s.streams
  {
    && s.hand.value.frame.Data? && s.hand.value.frame.id == id
    && (flow ==> s.streams[id].window <= 0)
    && s.active.None?
  }

  lemma DeferKeeps(s: Session, id: int, flow: bool)
    requires s.hand.Some? && id in s.streams && s.streams[id].deferred.None?
    ensures Inv(s) && CanDefer(s, id, flow) ==>
      Inv(PutStream(s, id, s.streams[id].(deferred := s.hand, deferredFlow := flow)).(hand := None))
  {
    if Inv(s) && CanDefer(s, id, flow) {
      var st := s.streams[id].(deferred := s.hand, deferredFlow := flow);
      var r := PutStream(s, id, st).(hand := None);
      assert r.streams.Keys == s.streams.Keys;
      forall mine: bool ensures Own(r.server, r.streams, mine) == Own(s.server, s.streams, mine) {}
      forall n: nat ensures Holders(r, n) == Holders(s, n) {
        DeferringUpdate(s.streams, id, st, n);
      }
      EventsEvolve(s, r);
    }
  }

  /** The deferred item of a stream goes back to the queue (spdylay_stream_detach_deferred_data). */
  function Wake(s: Session, id: int): (r: Session)
    requires id in s.streams && s.streams[id].deferred.Some?
    ensures Inv(s) ==> Inv(r)
  {
    WakeKeeps(s, id);
    PutStream(s, id, s.streams[id].(deferred := None, deferredFlow := false))
      .(obPq := Enqueue(s.obPq, s.streams[id].deferred.value))
  }

  lemma WakeKeeps(s: Session, id: int)
    requires id in s.streams && s.streams[id].deferred.Some?
    ensures Inv(s) ==> Inv(PutStream(s, id, s.streams[id].(deferred := None, deferredFlow := false))
                             .(obPq := Enqueue(s.obPq, s.streams[id].deferred.value)))
  {
    if Inv(s) {
      var item := s.streams[id].deferred.value;
      assert Holders(s, item.num) <= 1;
      DeferringHas(s.streams, id);
      NewInQueues(s, item);
      var st := s.streams[id].(deferred := None, deferredFlow := false);
      var r := PutStream(s, id, st).(obPq := Enqueue(s.obPq, item));
      assert r.streams.Keys == s.streams.Keys;
      forall mine: bool ensures Own(r.server, r.streams, mine) == Own(s.server, s.streams, mine) {}
      forall n: nat ensures Holders(r, n) == Holders(s, n) {
        DeferringUpdate(s.streams, id, st, n);
        EnqueueCounts(s.obPq, item, n);
      }
      EventsEvolve(s, r);
    }
  }

  /** The held item, packed, becomes the active one. */
  lemma ActivateKeeps(s: Session, a: Active)
    requires Inv(s) && s.hand.Some? && s.active.None? && a.item.num == s.hand.value.num && ItemOk(a.item)
    requires ActiveOk(s.(active := Some(a)))
    ensures Inv(s.(hand := None, active := Some(a)))
  {
    var r := s.(hand := None, active := Some(a));
    forall n: nat ensures Holders(r, n) == Holders(s, n) {}
    EventsEvolve(s, r);
  }

  /** The active frame is out: record it, and hold its item. */
  function TakeActive(s: Session): Session
    requires s.active.Some?
  {
    var f := s.active.value.item.frame;
    s.(active := None, hand := Some(s.active.value.item), log := s.log + [Sent(f)],
       goaway := s.goaway.(sent := s.goaway.sent || f.Goaway?))
  }

  /** What must be done before a frame is recorded as sent: with FIN our half is shut, after a
      SYN_REPLY the stream is no longer Opening, after a reset it is gone. */
  predicate SentOk(s: Session, f: Frame) {
    && (f.CarriesFin() && f.id in s.streams ==> s.streams[f.id].shutWr)
    && (f.SynReply? && f.id in s.streams ==> !s.streams[f.id].state.Opening?)
    && (f.RstStream? ==> f.id !in s.streams)
  }

  lemma SentHistory(s: Session, r: Session, f: Frame)
    requires HistoryOk(s) && ActiveOk(s) && SentOk(s, f) && s.active.Some? && f == s.active.value.item.frame
    requires r.log == s.log + [Sent(f)] && r.streams == s.streams && r.server == s.server && r.active.None?
    ensures HistoryOk(r)
  {
    var e := Sent(f);
    StartsWith(s.log, e);
    forall id | id in r.streams ensures InLog(r.log, id) && StateOk(r, id, r.streams[id].state) {
      InLogAppend(s.log, e, id);
      assert StateOk(s, id, s.streams[id].state);
    }
  }

  lemma TakeActiveKeeps(s: Session)
    requires Inv(s) && s.active.Some? && s.hand.None?
    requires SentOk(s, s.active.value.item.frame)
    ensures Inv(TakeActive(s))
  {
    var f := s.active.value.item.frame;
    var r := TakeActive(s);
    forall a | a in s.log ensures MayFollow(a, Sent(f)) && EventOk(r, a) {
      assert EventOk(s, a);
    }
    LogAppend(s.log, Sent(f));
    SentHistory(s, r, f);
    forall n: nat ensures Holders(r, n) == Holders(s, n) {
      CountFreedAppend(s.log, Sent(f), n);
    }
  }
}
