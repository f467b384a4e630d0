/** What the session promises, for every run from a new client or server session. */
module SessionTheorems {
  import opened Base
  import opened SessionTypes
  import opened SessionInvariant
  import opened SessionCore
  import opened SessionSend
  import opened SessionReceive
  import opened SessionRuns

  // ---------- stream IDs and counters ----------

  /** IDs enter the map in increasing order on each side. */
  lemma IdsIncrease(s: Session, server: bool, v3: bool, inputs: seq<Input>, i: int, j: int)
    requires Reachable(s, server, v3, inputs) && 0 <= i < j < |s.log|
    requires s.log[i].Enter? && s.log[j].Enter? && IsMine(server, s.log[i].id) == IsMine(server, s.log[j].id)
    ensures s.log[i].id < s.log[j].id
  {
    Reached(s, server, v3, inputs);
    assert s.log[i] in s.log && MayFollow(s.log[i], s.log[j]);
    assert EventOk(s, s.log[i]);
    assert EventOk(s, s.log[j]);
  }

  /** Each of them is positive and below 2^31; one of our parity was assigned here, any other
      was accepted from the peer. */
  lemma IdsInRange(s: Session, server: bool, v3: bool, inputs: seq<Input>, i: int)
    requires Reachable(s, server, v3, inputs) && 0 <= i < |s.log| && s.log[i].Enter?
    ensures 0 < s.log[i].id <= INT32_MAX
    ensures if IsMine(server, s.log[i].id) then s.log[i].id < s.nextStreamId else s.log[i].id <= s.lastRecvStreamId
  {
    Reached(s, server, v3, inputs);
    assert Run(Init(server, v3), inputs).server == server;
    assert EventOk(s, s.log[i]);
  }

  /** The map never refuses an ID: neither the next one of ours nor one accepted from the peer. */
  lemma OpenNeverRefused(s: Session, server: bool, v3: bool, inputs: seq<Input>, peer: StreamId)
    requires Reachable(s, server, v3, inputs)
    ensures s.nextStreamId !in s.streams && IsMine(server, s.nextStreamId)
    ensures IsNewPeerId(s, peer) ==> peer !in s.streams && !IsMine(server, peer)
  {
    Reached(s, server, v3, inputs);
    assert Run(Init(server, v3), inputs).server == server;
  }

  /** The two counters are the numbers of open streams of each side. */
  lemma CountersExact(s: Session, server: bool, v3: bool, inputs: seq<Input>)
    requires Reachable(s, server, v3, inputs)
    ensures s.numOutgoing == |set id <- s.streams | IsMine(server, id)|
    ensures s.numIncoming == |set id <- s.streams | !IsMine(server, id)|
  {
    Reached(s, server, v3, inputs);
    assert Own(server, s.streams, true) == set id <- s.streams | IsMine(server, id);
    assert Own(server, s.streams, false) == set id <- s.streams | !IsMine(server, id);
  }

  // ---------- half-close ----------

  /** After a frame with FIN went out on a stream, no SYN_REPLY, HEADERS or DATA frame ever
      goes out on that ID again. */
  lemma SilentAfterFin(s: Session, server: bool, v3: bool, inputs: seq<Input>, i: int, j: int)
    requires Reachable(s, server, v3, inputs) && 0 <= i < j < |s.log|
    requires s.log[i].Sent? && s.log[i].frame.CarriesFin()
    requires s.log[j].Sent? && s.log[j].frame.OnStream()
    ensures s.log[i].frame.id != s.log[j].frame.id
  {
    Reached(s, server, v3, inputs);
    assert MayFollow(s.log[i], s.log[j]);
  }

  /** After a FIN of the peer was accepted on a stream, no data chunk is delivered for it. */
  lemma DeafAfterFin(s: Session, server: bool, v3: bool, inputs: seq<Input>, i: int, j: int)
    requires Reachable(s, server, v3, inputs) && 0 <= i < j < |s.log|
    requires s.log[i].PeerFin? && s.log[j].Chunk?
    ensures s.log[i].id != s.log[j].id
  {
    Reached(s, server, v3, inputs);
    assert MayFollow(s.log[i], s.log[j]);
  }

  /** No stream lingers with both directions shut, and an ID whose close was reported is gone. */
  lemma NoneLingers(s: Session, server: bool, v3: bool, inputs: seq<Input>, id: int)
    requires Reachable(s, server, v3, inputs) && id in s.streams
    ensures !(s.streams[id].shutRd && s.streams[id].shutWr) && Closed(id) !in s.log
  {
    Reached(s, server, v3, inputs);
    assert StreamOk(id, s.streams[id]);
    assert forall e <- s.log :: EventOk(s, e);
  }

  /** The close callback fires at most once per ID. */
  lemma ClosedOnce(s: Session, server: bool, v3: bool, inputs: seq<Input>, i: int, j: int)
    requires Reachable(s, server, v3, inputs) && 0 <= i < j < |s.log|
    ensures s.log[i].Closed? && s.log[j].Closed? ==> s.log[i].id != s.log[j].id
  {
    Reached(s, server, v3, inputs);
    assert MayFollow(s.log[i], s.log[j]);
  }

  // ---------- outbound items ----------

  /** An item that was accepted is in exactly one place, or was freed exactly once; a number
      not given out yet is nowhere.  No stream has an active and a deferred DATA item. */
  lemma SingleOwner(s: Session, server: bool, v3: bool, inputs: seq<Input>, n: nat)
    requires Reachable(s, server, v3, inputs)
    ensures CountItem(s.obPq, n) + CountItem(s.obSsPq, n)
            + (if s.active.Some? && s.active.value.item.num == n then 1 else 0)
            + |set id <- s.streams | s.streams[id].deferred.Some? && s.streams[id].deferred.value.num == n|
            + CountFreed(s.log, n)
            == if n < s.nextSeq then 1 else 0
    ensures s.active.Some? && s.active.value.item.frame.Data? && s.active.value.item.frame.id in s.streams
            ==> s.streams[s.active.value.item.frame.id].deferred.None?
  {
    Reached(s, server, v3, inputs);
    assert Holders(s, n) == if n < s.nextSeq then 1 else 0;
    assert Deferring(s.streams, n) ==
           set id <- s.streams | s.streams[id].deferred.Some? && s.streams[id].deferred.value.num == n;
  }

  /** The two queues are always in strict order, and only SYN_STREAM frames are in the second. */
  lemma QueuesSorted(s: Session, server: bool, v3: bool, inputs: seq<Input>)
    requires Reachable(s, server, v3, inputs)
    ensures Sorted(s.obPq) && Sorted(s.obSsPq) && (forall x <- s.obPq :: !x.frame.SynStream?) && forall x <- s.obSsPq :: x.frame.SynStream?
  {
    Reached(s, server, v3, inputs);
  }

  /** The items spdylay_session_get_next_ob_item chooses from. */
  predicate Eligible(s: Session, x: Item) {
    x in s.obPq || (x in s.obSsPq && !OutgoingMax(s))
  }

  /** It returns the most urgent of them, and nothing exactly if there is none. */
  lemma PeekIsMostUrgent(s: Session, server: bool, v3: bool, inputs: seq<Input>)
    requires Reachable(s, server, v3, inputs)
    ensures PeekNext(s).Some? <==> exists y :: Eligible(s, y)
    ensures PeekNext(s).Some? ==> Eligible(s, PeekNext(s).value)
    ensures forall y :: Eligible(s, y) ==> PeekNext(s).Some? && (y == PeekNext(s).value || Before(PeekNext(s).value, y))
  {
    forall y | Eligible(s, y) ensures PeekNext(s).Some? && (y == PeekNext(s).value || Before(PeekNext(s).value, y)) {
      PeekBefore(s, server, v3, inputs, y);
    }
    if PeekNext(s).Some? {
      assert s.obPq != [] ==> s.obPq[0] in s.obPq;
      assert s.obSsPq != [] ==> s.obSsPq[0] in s.obSsPq;
      assert Eligible(s, PeekNext(s).value);
    }
  }

  lemma PeekBefore(s: Session, server: bool, v3: bool, inputs: seq<Input>, y: Item)
    requires Reachable(s, server, v3, inputs) && Eligible(s, y)
    ensures PeekNext(s).Some? && (y == PeekNext(s).value || Before(PeekNext(s).value, y))
  {
    QueuesSorted(s, server, v3, inputs);
    Reached(s, server, v3, inputs);
    if y in s.obPq {
      HeadFirst(s.obPq, y);
    } else {
      HeadFirst(s.obSsPq, y);
    }
    if s.obPq != [] && s.obSsPq != [] {
      HeadsDiffer(s);
    }
  }

  lemma HeadFirst(q: seq<Item>, y: Item)
    requires Sorted(q) && y in q
    ensures y == q[0] || Before(q[0], y)
  {
    var k :| 0 <= k < |q| && q[k] == y;
  }

  lemma HeadsDiffer(s: Session)
    requires Inv(s) && s.obPq != [] && s.obSsPq != []
    ensures s.obPq[0].num != s.obSsPq[0].num
  {
    assert Holders(s, s.obPq[0].num) <= 1;
  }

  /** spdylay_session_pop_next_ob_item takes that same item, except exactly when both queues are
      filled and either the limit on streams is reached or the other frame is more urgent. */
  lemma PopPeekAgree(s: Session, server: bool, v3: bool, inputs: seq<Input>)
    requires Reachable(s, server, v3, inputs) && s.active.None?
    ensures s.hand.None?
    ensures PopNext(s).hand == PeekNext(s) <==>
      !(s.obPq != [] && s.obSsPq != [] && (OutgoingMax(s) || Before(s.obPq[0], s.obSsPq[0])))
  {
    Reached(s, server, v3, inputs);
    if s.obPq != [] && s.obSsPq != [] {
      HeadsDiffer(s);
    }
  }

  /** At the limit on streams, sending takes one more stream exactly when both queues are filled
      and the SYN_STREAM may be sent and can be packed. */
  lemma LimitPassed(s: Session, server: bool, v3: bool, inputs: seq<Input>, read: ReadResult, packed: Option<nat>)
    requires Reachable(s, server, v3, inputs) && s.active.None? && OutgoingMax(s)
    ensures s.hand.None?
    ensures Step(s, PullItem(read, packed)).numOutgoing > s.cfg.remoteMax <==>
      s.numOutgoing > s.cfg.remoteMax
      || (s.obPq != [] && s.obSsPq != [] && SynStreamSendError(s, s.obSsPq[0].frame.assoc) == 0 && packed.Some?)
  {
    Reached(s, server, v3, inputs);
    StepPull(s, read, packed);
    PullOpens(s, read, packed);
  }

  lemma PullOpens(s: Session, read: ReadResult, packed: Option<nat>)
    requires Inv(s) && s.hand.None? && s.active.None? && OutgoingMax(s)
    ensures Pull(s, read, packed).numOutgoing == s.numOutgoing +
      if s.obPq != [] && s.obSsPq != [] && SynStreamSendError(s, s.obSsPq[0].frame.assoc) == 0 && packed.Some? then 1 else 0
  {
    var s1 := PopNext(s);
    if s1.hand.Some? {
      assert s.obPq != [] ==> s.obPq[0] in s.obPq;
      assert s.obSsPq != [] ==> s.obSsPq[0] in s.obSsPq;
      if s1.hand.value.frame.SynStream? {
        SynOpens(s1, packed);
      } else {
        OthersOpenNone(s1, read, packed);
      }
    }
  }

  lemma SynOpens(s: Session, packed: Option<nat>)
    requires s.hand.Some? && s.active.None? && s.hand.value.frame.SynStream? && IsMine(s.server, s.nextStreamId)
    ensures PrepSynStream(s, packed).numOutgoing == s.numOutgoing +
      if SynStreamSendError(s, s.hand.value.frame.assoc) == 0 && packed.Some? then 1 else 0
  {
  }

  lemma OthersOpenNone(s: Session, read: ReadResult, packed: Option<nat>)
    requires s.hand.Some? && s.active.None? && !s.hand.value.frame.SynStream?
    ensures (if s.hand.value.frame.Data? then PrepData(s, read) else PrepControl(s, packed)).numOutgoing == s.numOutgoing
  {
  }

  /** A peer that allows no stream gets one all the same: a request and a PING are queued. */
  lemma LimitIgnored() returns (s: Session, inputs: seq<Input>, read: ReadResult)
    ensures Reachable(s, false, true, inputs) && s.hand.None? && s.active.None? && PopNext(s).hand != PeekNext(s)
    ensures Step(s, PullItem(read, Some(18))).numOutgoing == 1 > s.cfg.remoteMax == 0
  {
    var s0, none: seq<Input> := Init(false, true), [];
    var i1, i2, i3 := RecvSettings([(SETTINGS_MAX_CONCURRENT_STREAMS, 0)]), SubmitSynStream(false, false, 0, 0, false), SubmitPing(1);
    var s1 := Step(s0, i1);
    NoneAllowed(s0);
    BothQueued(s1);
    s, inputs, read := Step(Step(s1, i2), i3), none + [i1] + [i2] + [i3], ReadDeferred;
    RunSnoc(s0, none, i1);
    RunSnoc(s0, none + [i1], i2);
    RunSnoc(s0, none + [i1] + [i2], i3);
    Reached(s, false, true, inputs);
    OneMore(s, read);
  }

  /** A request and another frame wait, and no stream is allowed. */
  predicate AtLimit(s: Session) {
    && s.hand.None? && s.active.None? && s.numOutgoing == s.cfg.remoteMax == 0
    && s.obPq != [] && s.obSsPq != [] && !s.obPq[0].frame.SynStream? && s.obSsPq[0].frame.SynStream?
    && SynStreamSendError(s, s.obSsPq[0].frame.assoc) == 0
  }

  lemma BothQueued(s: Session)
    requires s == Init(false, true).(cfg := Init(false, true).cfg.(remoteMax := 0))
    ensures AtLimit(Step(Step(s, SubmitSynStream(false, false, 0, 0, false)), SubmitPing(1)))
  {
    var x := Item(0, 0, SynStream(0, false, false, 0, 0, false));
    assert Step(s, SubmitSynStream(false, false, 0, 0, false)) == s.(nextSeq := 1, obSsPq := [x]);
  }

  lemma OneMore(s: Session, read: ReadResult)
    requires Inv(s) && AtLimit(s)
    ensures PopNext(s).hand != PeekNext(s) && Step(s, PullItem(read, Some(18))).numOutgoing == 1
  {
    PullOpens(s, read, Some(18));
    StepPull(s, read, Some(18));
  }

  lemma NoneAllowed(s: Session)
    requires s == Init(false, true)
    ensures Step(s, RecvSettings([(SETTINGS_MAX_CONCURRENT_STREAMS, 0)])) == s.(cfg := s.cfg.(remoteMax := 0))
  {
    var one := [(SETTINGS_MAX_CONCURRENT_STREAMS, 0)];
    StepSettings(s, one);
    assert one[1..] == [];
  }

  // ---------- flow control ----------

  /** A DATA item waiting for window waits with good reason; when a WINDOW_UPDATE gives the
      stream a positive window, the item is back in the queue, once. */
  lemma NoLostWakeUp(s: Session, server: bool, v3: bool, inputs: seq<Input>, id: StreamId, delta: StreamId)
    requires Reachable(s, server, v3, inputs) && s.flowControl
    requires id in s.streams && s.streams[id].deferred.Some? && s.streams[id].deferredFlow
    ensures s.streams[id].window <= 0
    ensures var r := OnWindowUpdate(s, id, delta);
            var n := s.streams[id].deferred.value.num;
            s.streams[id].window + delta > 0 ==>
              r.streams[id].window == s.streams[id].window + delta && r.streams[id].deferred.None?
              && CountItem(s.obPq, n) == 0 && CountItem(r.obPq, n) == 1
  {
    Reached(s, server, v3, inputs);
    assert StreamOk(id, s.streams[id]);
    var n := s.streams[id].deferred.value.num;
    assert id in Deferring(s.streams, n);
    assert Holders(s, n) <= 1;
    assert |Deferring(s.streams, n)| >= 1;
    EnqueueCounts(s.obPq, s.streams[id].deferred.value, n);
  }

  /** The same for a SETTINGS frame: every stream whose window it makes positive has its
      waiting item back in the queue, once. */
  lemma SettingsWake(s: Session, server: bool, v3: bool, inputs: seq<Input>, id: int, v: nat)
    requires Reachable(s, server, v3, inputs) && s.flowControl && v <= INT32_MAX
    requires id in s.streams && s.streams[id].deferred.Some? && s.streams[id].deferredFlow
    ensures var r := OneSetting(s, SETTINGS_INITIAL_WINDOW_SIZE, v);
            var n := s.streams[id].deferred.value.num;
            && id in r.streams && (r.streams[id].window > 0 <==> s.streams[id].window + v - ToInt32(s.cfg.remoteInit) > 0)
            && (r.streams[id].window > 0 ==> r.streams[id].deferred.None? && CountItem(r.obPq, n) == 1)
  {
    Reached(s, server, v3, inputs);
    var was := ToInt32(s.cfg.remoteInit);
    if s.streams[id].window + v - was > 0 {
      AwakeOnce(s, v, was, id);
    }
  }

  lemma AwakeOnce(s: Session, value: int, was: int, id: int)
    requires Inv(s) && id in s.streams
    requires s.streams[id].deferred.Some? && s.streams[id].deferredFlow && s.streams[id].window + value - was > 0
    ensures var r := AdjustWindows(s, s.streams.Keys, value, was);
            r.streams[id].deferred.None? && CountItem(r.obPq, s.streams[id].deferred.value.num) == 1
  {
    AdjustWakes(s, s.streams.Keys, value, was, id);
    assert Holders(AdjustWindows(s, s.streams.Keys, value, was), s.streams[id].deferred.value.num) <= 1;
  }

  /** Adjusting other streams takes nothing off the queue and leaves the item deferred; its own
      turn queues it. */
  lemma {:induction false} AdjustWakes(s: Session, ids: set<int>, value: int, was: int, id: int)
    requires ids <= s.streams.Keys && id in ids
    requires s.streams[id].deferred.Some? && s.streams[id].deferredFlow && s.streams[id].window + value - was > 0
    ensures var r := AdjustWindows(s, ids, value, was);
            r.streams[id].deferred.None? && CountItem(r.obPq, s.streams[id].deferred.value.num) >= 1
    decreases |ids|
  {
    var least := Least(ids);
    var s1 := Adjusted(s, least, value, was);
    if least == id {
      EnqueueCounts(s.obPq, s.streams[id].deferred.value, s.streams[id].deferred.value.num);
      AdjustAdds(s1, ids - {least}, value, was, id, s.streams[id].deferred.value.num);
    } else {
      AdjustWakes(s1, ids - {least}, value, was, id);
    }
  }

  lemma {:induction false} AdjustAdds(s: Session, ids: set<int>, value: int, was: int, id: int, n: nat)
    requires ids <= s.streams.Keys && id in s.streams && id !in ids
    ensures var r := AdjustWindows(s, ids, value, was);
            CountItem(r.obPq, n) >= CountItem(s.obPq, n) && r.streams[id] == s.streams[id]
    decreases |ids|
  {
    if Inhabited(ids) {
      var least := Least(ids);
      if s.streams[least].deferred.Some? {
        EnqueueCounts(s.obPq, s.streams[least].deferred.value, n);
      }
      AdjustAdds(Adjusted(s, least, value, was), ids - {least}, value, was, id, n);
    }
  }

  /** However sends are cut up, no DATA frame is ever packed past what the peer has granted at
      that moment, unless the peer announced an initial window of 2^31 or more. */
  lemma NeverOverSend(s: Session, server: bool, inputs: seq<Input>)
    requires Reachable(s, server, true, inputs) && !s.cfg.oversized
    ensures !s.cfg.overSent
    ensures forall id <- s.streams :: s.streams[id].window + s.streams[id].charged <= s.cfg.remoteInit + s.streams[id].credited
  {
    Reached(s, server, true, inputs);
    assert Run(Init(server, true), inputs).flowControl;
  }

  predicate IsInt32(x: int) {
    -0x8000_0000 <= x <= INT32_MAX
  }

  /** The new window `value - (was - window)` can be computed in 32 bits. */
  predicate Computable(value: int, was: int, window: int) {
    IsInt32(was - window) && IsInt32(value - (was - window))
  }

  /** Such an announcement is stored unapplied, so the next one adds what was skipped to
      every window: the sender then believes in credit nobody granted. */
  lemma OversizedInflates(s: Session, id: int, big: int, v: int)
    requires s.flowControl && id in s.streams
    requires INT32_MAX < big < 0x1_0000_0000 && 0 <= v <= INT32_MAX && Computable(v, ToInt32(big), s.streams[id].window)
    ensures var r := OnSettings(OnSettings(s, [(SETTINGS_INITIAL_WINDOW_SIZE, big)], {}),
                                [(SETTINGS_INITIAL_WINDOW_SIZE, v)], {});
            && id in r.streams && r.cfg.remoteInit == v
            && r.streams[id].window == s.streams[id].window + v + (0x1_0000_0000 - big)
  {
    var s1 := OnSettings(s, [(SETTINGS_INITIAL_WINDOW_SIZE, big)], {});
    WindowSetting(s, big);
    WindowSetting(s1, v);
  }

  /** The effect of a SETTINGS frame with just an initial window size. */
  lemma WindowSetting(s: Session, v: int)
    requires s.flowControl
    ensures var r := OnSettings(s, [(SETTINGS_INITIAL_WINDOW_SIZE, v)], {});
            && r.cfg.remoteInit == v && r.flowControl && r.streams.Keys == s.streams.Keys
            && forall id <- s.streams :: r.streams[id].window ==
                 s.streams[id].window + if v <= INT32_MAX then v - ToInt32(s.cfg.remoteInit) else 0
  {
    var one := [(SETTINGS_INITIAL_WINDOW_SIZE, v)];
    assert one[1..] == [];
    if v <= INT32_MAX {
      var s1 := AdjustWindows(s, s.streams.Keys, v, ToInt32(s.cfg.remoteInit));
      assert OnSettings(s, one, {}).streams == s1.streams;
    } else {
      assert OnSettings(s, one, {}).streams == s.streams;
    }
  }

  // ---------- GOAWAY ----------

  /** spdylay_session_want_read. */
  predicate WantRead(s: Session) {
    !(s.goaway.failOnSend && s.goaway.sent) && (!s.goaway.Any() || |s.streams| > 0)
  }

  /** spdylay_session_want_write. */
  predicate WantWrite(s: Session) {
    && !(s.goaway.failOnSend && s.goaway.sent)
    && (s.active.Some? || s.obPq != [] || (s.obSsPq != [] && !OutgoingMax(s)))
    && (!s.goaway.Any() || |s.streams| > 0)
  }

  /** At most one GOAWAY frame is ever sent. */
  lemma OneGoaway(s: Session, server: bool, v3: bool, inputs: seq<Input>, i: int, j: int)
    requires Reachable(s, server, v3, inputs) && 0 <= i < j < |s.log|
    requires s.log[i].Sent? && s.log[i].frame.Goaway?
    ensures !(s.log[j].Sent? && s.log[j].frame.Goaway?) && s.goaway.sent
  {
    Reached(s, server, v3, inputs);
    assert MayFollow(s.log[i], s.log[j]);
    assert s.log[i] in s.log && EventOk(s, s.log[i]);
  }

  /** Once a GOAWAY is sent, received or due, no continuation opens a stream; once no stream
      is left, the session never again wants to read or write. */
  lemma GoawayWindsDown(s: Session, more: seq<Input>)
    requires s.hand.None? && s.goaway.Any()
    ensures Run(s, more).streams.Keys <= s.streams.Keys
    ensures s.streams == map[] ==> !WantRead(Run(s, more)) && !WantWrite(Run(s, more))
  {
    var r := Run(s, more);
    if s.streams == map[] {
      assert r.streams.Keys == {};
      assert r.streams == map[];
    }
  }

  /** A failing session wants nothing more once its GOAWAY is sent, in any continuation. */
  lemma FailureEnds(s: Session, more: seq<Input>)
    requires s.hand.None? && s.goaway.failOnSend && s.goaway.sent
    ensures !WantRead(Run(s, more)) && !WantWrite(Run(s, more))
  {
  }

  /** Before any GOAWAY a session always wants to read; and it wants to write exactly if a frame
      is being sent or the send loop would take one, as long as it is not over. */
  lemma WantsExactly(s: Session)
    requires s.hand.None?
    ensures !s.goaway.Any() ==> WantRead(s) && (WantWrite(s) <==> s.active.Some? || PopNext(s).hand.Some?)
    ensures s.goaway.Any() ==> (WantRead(s) <==> |s.streams| > 0 && !(s.goaway.failOnSend && s.goaway.sent))
    ensures WantWrite(s) <==> (s.active.Some? || PopNext(s).hand.Some?) && WantRead(s)
  {
  }

  /** A GOAWAY that arrives between DATA frames is remembered, and nothing else happens. */
  lemma GoawayCounts(s: Session)
    requires s.hand.None? && s.receiving.None?
    ensures Step(s, RecvGoaway).goaway == GoawayFlags(s.goaway.sent, true, s.goaway.failOnSend)
    ensures Step(s, RecvGoaway) == s.(goaway := Step(s, RecvGoaway).goaway)
  {
  }

  /** From the moment a GOAWAY is sent, received or due, no stream enters the map in any
      continuation. */
  lemma NoneEnters(s: Session, server: bool, v3: bool, inputs: seq<Input>, more: seq<Input>, k: nat)
    requires Reachable(s, server, v3, inputs) && s.hand.None? && s.goaway.Any()
    ensures s.log <= Run(s, more).log
    ensures |s.log| <= k < |Run(s, more).log| ==> !Run(s, more).log[k].Enter?
  {
    Reached(s, server, v3, inputs);
    NoneNew(s.log, Run(s, more).log, k);
  }

  lemma NoneNew(log: seq<Event>, more: seq<Event>, k: nat)
    requires log <= more && LogOrdered(more) && forall id :: Enter(id) in more ==> Enter(id) in log
    ensures |log| <= k < |more| ==> !more[k].Enter?
  {
    if |log| <= k < |more| && more[k].Enter? {
      EnterTwice(log, more, k);
    }
  }

  lemma EnterTwice(log: seq<Event>, more: seq<Event>, k: nat)
    requires log <= more && |log| <= k < |more| && more[k].Enter? && (more[k] in more ==> more[k] in log)
    ensures !LogOrdered(more)
  {
    var i :| 0 <= i < |log| && log[i] == more[k];
    assert more[i] == more[k] && !MayFollow(more[i], more[k]);
  }

  /** So it is after a GOAWAY has arrived. */
  lemma GoawayShutsOut(s: Session, server: bool, v3: bool, inputs: seq<Input>, more: seq<Input>, k: nat)
    requires Reachable(s, server, v3, inputs) && s.hand.None? && s.receiving.None?
    ensures var r := Run(Step(s, RecvGoaway), more);
      |s.log| <= k < |r.log| ==> !r.log[k].Enter?
  {
    GoawayCounts(s);
    RunSnoc(Init(server, v3), inputs, RecvGoaway);
    NoneEnters(Step(s, RecvGoaway), server, v3, inputs + [RecvGoaway], more, k);
  }

  /** After a malformed frame, for which a GOAWAY is due. */
  lemma FailureShutsOut(s: Session, server: bool, v3: bool, inputs: seq<Input>, more: seq<Input>, k: nat)
    requires Reachable(s, server, v3, inputs) && s.hand.None? && s.receiving.None?
    ensures var r := Run(Step(s, RecvMalformed), more);
      Step(s, RecvMalformed).goaway.failOnSend && (|s.log| <= k < |r.log| ==> !r.log[k].Enter?)
  {
    FailureCounts(s);
    RunSnoc(Init(server, v3), inputs, RecvMalformed);
    NoneEnters(Step(s, RecvMalformed), server, v3, inputs + [RecvMalformed], more, k);
  }

  lemma FailureCounts(s: Session)
    requires s.hand.None? && s.receiving.None?
    ensures Step(s, RecvMalformed).goaway.failOnSend && Step(s, RecvMalformed).log == s.log
  {
    StepMalformed(s);
    FailKeepsLog(s);
  }

  lemma StepMalformed(s: Session)
    requires s.hand.None? && s.receiving.None?
    ensures Step(s, RecvMalformed) == FailSession(s)
  {
  }

  lemma FailKeepsLog(s: Session)
    ensures FailSession(s).goaway.failOnSend && FailSession(s).log == s.log
  {
  }

  /** And after one has been sent. */
  lemma NoneEntersAfterGoaway(s: Session, server: bool, v3: bool, inputs: seq<Input>, i: int, j: int)
    requires Reachable(s, server, v3, inputs) && 0 <= i < j < |s.log|
    requires s.log[i].Sent? && s.log[i].frame.Goaway?
    ensures !s.log[j].Enter?
  {
    Reached(s, server, v3, inputs);
    assert MayFollow(s.log[i], s.log[j]);
  }

  // ---------- how a side of a stream begins ----------

  /** A side of a stream begins once, with SYN_STREAM or SYN_REPLY, and HEADERS and DATA come later. */
  lemma BeginsFirst(s: Session, server: bool, v3: bool, inputs: seq<Input>, j: int) returns (i: int)
    requires Reachable(s, server, v3, inputs) && 0 <= j < |s.log| && s.log[j].Sent? && s.log[j].frame.Follows()
    ensures 0 <= i < j && s.log[i].Sent? && s.log[i].frame.Begins() && s.log[i].frame.id == s.log[j].frame.id
    ensures forall k :: 0 <= k < |s.log| && k != i && s.log[k].Sent? && s.log[k].frame.Begins() ==> s.log[k].frame.id != s.log[j].frame.id
  {
    Reached(s, server, v3, inputs);
    var id := s.log[j].frame.id;
    assert s.log[j] in s.log && HasBegun(s.log, id);
    var e :| e in s.log && e.Sent? && e.frame.Begins() && e.frame.id == id;
    i :| 0 <= i < |s.log| && s.log[i] == e;
    forall k | 0 <= k < |s.log| && k != i && s.log[k].Sent? && s.log[k].frame.Begins() ensures s.log[k].frame.id != id {
      assert if k < i then MayFollow(s.log[k], s.log[i]) else MayFollow(s.log[i], s.log[k]);
    }
  }

  // ---------- resets ----------

  lemma {:induction false} EntersLast(log: seq<Event>, id: int) returns (k: int)
    requires InLog(log, id)
    ensures 0 <= k < |log| && log[k] == Enter(id) && forall j :: k < j < |log| ==> !Resets(log[j], id)
  {
    var n := |log| - 1;
    if log[n] == Enter(id) {
      k := n;
    } else {
      k := EntersLast(log[..n], id);
    }
  }

  lemma ResetBefore(log: seq<Event>, id: int, status: int, j: int)
    requires LogOrdered(log) && InLog(log, id) && 0 <= j < |log| && log[j] == Sent(RstStream(id, status))
    ensures Enter(id) in log[j..] && Enter(id) !in log[..j]
  {
    var k := EntersLast(log, id);
    assert Resets(log[j], id);
    assert log[j..][k - j] == Enter(id);
    forall i | 0 <= i < j ensures log[i] != Enter(id) {
      assert MayFollow(log[i], log[k]);
    }
  }

  /** A stream that has entered the map and whose reset was then sent is gone for good: one in
      the map has entered it after every reset of its ID. */
  lemma ResetIsFinal(s: Session, server: bool, v3: bool, inputs: seq<Input>, id: int, status: int, j: int)
    requires Reachable(s, server, v3, inputs) && 0 <= j < |s.log| && s.log[j] == Sent(RstStream(id, status))
    ensures id in s.streams ==> Enter(id) in s.log[j..] && Enter(id) !in s.log[..j]
  {
    Reached(s, server, v3, inputs);
    if id in s.streams {
      ResetBefore(s.log, id, status, j);
    }
  }
}
