/** The one way to be talked into sending too much: an announced initial window of 2^31 or
    more. Exactly which runs contain one, and what it leads to. */
module Oversized {
  import opened Base
  import opened SessionTypes
  import opened SessionInvariant
  import opened SessionCore
  import opened SessionSend
  import opened SessionReceive
  import opened SessionRuns
  import opened SessionTheorems
  import opened Ports

  // ---------- when it happens ----------

  /** A SETTINGS frame whose initial window size does not fit the signed window. */
  predicate Announces(s: Session, i: Input) {
    i.RecvSettings? && s.receiving.None? && HasWindow(i.entries) && Lookup(i.entries, SETTINGS_INITIAL_WINDOW_SIZE, 0) > INT32_MAX
  }

  /** One is received in the course of a run. */
  ghost predicate EverAnnounced(s: Session, inputs: seq<Input>)
    requires s.hand.None?
    decreases inputs
  {
    inputs != [] && (Announces(s, inputs[0]) || EverAnnounced(Step(s, inputs[0]), inputs[1..]))
  }

  lemma SendSame(s: Session, i: Input)
    requires Inv(s) && s.hand.None? && (i.PullItem? || i.PushBytes?)
    ensures Step(s, i).cfg.oversized == s.cfg.oversized
  {
    if i.PullItem? && s.active.None? {
      StepPull(s, i.read, i.packed);
      PullSame(s, i.read, i.packed);
    } else if i.PushBytes? && s.active.Some? && s.active.value.offset + i.sent <= s.active.value.length {
      StepPush(s, i.sent, i.read);
      var s1 := Charge(s, i.sent);
      if s1.active.value.offset == s1.active.value.length {
        AfterCalm(s1, i.read, -1);
      }
    }
  }

  lemma PullSame(s: Session, read: ReadResult, packed: Option<nat>)
    requires s.hand.None? && s.active.None?
    ensures Pull(s, read, packed).cfg.oversized == s.cfg.oversized
  {
    var s1 := PopNext(s);
    if s1.hand.Some? {
      if s1.hand.value.frame.Data? {
        PrepDataCalm(s1, read, -1);
      } else if s1.hand.value.frame.SynStream? {
        PrepSynSame(s1, packed);
      } else {
        PrepControlSame(s1, packed);
      }
    }
  }

  lemma PrepSynSame(s: Session, packed: Option<nat>)
    requires s.hand.Some? && s.active.None? && s.hand.value.frame.SynStream?
    ensures PrepSynStream(s, packed).cfg == s.cfg
  {
  }

  lemma PrepControlSame(s: Session, packed: Option<nat>)
    requires s.hand.Some? && s.active.None? && !s.hand.value.frame.SynStream? && !s.hand.value.frame.Data?
    ensures PrepControl(s, packed).cfg == s.cfg
  {
  }

  lemma StepOversized(s: Session, i: Input)
    requires Inv(s) && s.hand.None?
    ensures Step(s, i).cfg.oversized <==> s.cfg.oversized || Announces(s, i)
  {
    if i.PullItem? || i.PushBytes? {
      SendSame(s, i);
    } else if i.RecvSettings? {
      if s.receiving.None? {
        StepSettings(s, i.entries);
        SettingsDone(s, i.entries, {}, -1);
      }
    } else if !i.SubmitSettings? && !i.SetNoAutoWindowUpdate? {
      StepStill(s, i, if s.receiving.Some? && s.receiving.value.id == -1 then -2 else -1);
    }
  }

  /** The history flag says exactly whether the run contained such an announcement. */
  lemma {:induction false} OversizedExact(s: Session, inputs: seq<Input>)
    requires Inv(s) && s.hand.None?
    ensures Run(s, inputs).cfg.oversized <==> s.cfg.oversized || EverAnnounced(s, inputs)
    decreases inputs
  {
    if inputs != [] {
      StepOversized(s, inputs[0]);
      OversizedExact(Step(s, inputs[0]), inputs[1..]);
    }
  }

  /** Without one, no run ever packs a DATA frame past what the peer has granted. */
  lemma WithinGrant(s: Session, server: bool, inputs: seq<Input>)
    requires Reachable(s, server, true, inputs) && !EverAnnounced(Init(server, true), inputs)
    ensures !s.cfg.overSent
  {
    InitOk(server, true);
    OversizedExact(Init(server, true), inputs);
    NeverOverSend(s, server, inputs);
  }

  // ---------- what it leads to ----------

  /** A DATA item of stream `id` is next, and may be sent. */
  predicate Ready(s: Session, id: int) {
    && s.flowControl && s.hand.None? && s.active.None? && s.receiving.None?
    && s.obSsPq == [] && s.obPq != [] && s.obPq[0].frame.Data? && s.obPq[0].frame.id == id && !s.obPq[0].frame.eof
    && DataSendError(s, id) == 0 && NoneWaits(s)
  }

  predicate NoneWaits(s: Session) {
    forall j <- s.streams :: s.streams[j].deferred.None?
  }

  /** The windows have moved and nothing else that matters here. */
  ghost predicate OnlyWindows(s: Session, r: Session) {
    && r == s.(streams := r.streams, cfg := r.cfg) && r.streams.Keys == s.streams.Keys
    && (forall j <- s.streams :: r.streams[j] == s.streams[j].(window := r.streams[j].window))
  }

  lemma {:induction false} AdjustOnly(s: Session, ids: set<int>, value: int, was: int)
    requires ids <= s.streams.Keys && NoneWaits(s)
    ensures OnlyWindows(s, AdjustWindows(s, ids, value, was))
    decreases |ids|
  {
    if Inhabited(ids) {
      var s1 := Adjusted(s, Least(ids), value, was);
      assert OnlyWindows(s, s1);
      AdjustOnly(s1, ids - {Least(ids)}, value, was);
    }
  }

  /** A SETTINGS frame with just an initial window size. */
  lemma WindowOnly(s: Session, v: int, id: int)
    requires Ready(s, id)
    ensures var r := Step(s, RecvSettings([(SETTINGS_INITIAL_WINDOW_SIZE, v)]));
      && OnlyWindows(s, r) && Ready(r, id) && r.cfg.remoteInit == v && r.cfg.overSent == s.cfg.overSent
      && r.streams[id].window == s.streams[id].window + if v <= INT32_MAX then v - ToInt32(s.cfg.remoteInit) else 0
  {
    StepSettings(s, [(SETTINGS_INITIAL_WINDOW_SIZE, v)]);
    OneIs(s, v);
    SettingOnly(s, v, id);
  }

  lemma SettingOnly(s: Session, v: int, id: int)
    requires Ready(s, id)
    ensures var r := OneSetting(s, SETTINGS_INITIAL_WINDOW_SIZE, v);
      && OnlyWindows(s, r) && Ready(r, id) && r.cfg.remoteInit == v && r.cfg.overSent == s.cfg.overSent
      && r.streams[id].window == s.streams[id].window + if v <= INT32_MAX then v - ToInt32(s.cfg.remoteInit) else 0
  {
    if v <= INT32_MAX {
      AdjustOnly(s, s.streams.Keys, v, ToInt32(s.cfg.remoteInit));
    }
  }

  lemma OneIs(s: Session, v: int)
    ensures OnSettings(s, [(SETTINGS_INITIAL_WINDOW_SIZE, v)], {}) == OneSetting(s, SETTINGS_INITIAL_WINDOW_SIZE, v)
  {
    assert [(SETTINGS_INITIAL_WINDOW_SIZE, v)][1..] == [];
  }

  /** Packing the next frame goes past the grant exactly when its payload does. */
  lemma PackExact(s: Session, id: int, k: nat)
    requires Ready(s, id) && 0 < k <= NextDataRead(s, s.streams[id])
    ensures Step(s, PullItem(ReadBytes(k, false), None)).cfg.overSent <==>
      s.cfg.overSent || s.streams[id].charged + k > Granted(s, id)
  {
    StepPull(s, ReadBytes(k, false), None);
  }

  /** Announce `big`, then `v`, and send `k` bytes: the sender exceeds its grant exactly when
      `k` more bytes do, however large the window it believes in. */
  lemma OverSendExact(s: Session, id: int, big: int, v: int, k: nat)
    requires Ready(s, id) && INT32_MAX < big < 0x1_0000_0000 && 0 <= v <= INT32_MAX
    requires Computable(v, ToInt32(big), s.streams[id].window)
    requires 0 < k <= DATA_PAYLOAD_LENGTH <= s.streams[id].window + v + (0x1_0000_0000 - big)
    ensures var s1 := Step(s, RecvSettings([(SETTINGS_INITIAL_WINDOW_SIZE, big)]));
      var s2 := Step(s1, RecvSettings([(SETTINGS_INITIAL_WINDOW_SIZE, v)]));
      Step(s2, PullItem(ReadBytes(k, false), None)).cfg.overSent <==>
        s.cfg.overSent || s.streams[id].charged + k > v + s.streams[id].credited
  {
    WindowOnly(s, big, id);
    var s1 := Step(s, RecvSettings([(SETTINGS_INITIAL_WINDOW_SIZE, big)]));
    WindowOnly(s1, v, id);
    PackExact(Step(s1, RecvSettings([(SETTINGS_INITIAL_WINDOW_SIZE, v)])), id, k);
  }

  // ---------- and that it can happen ----------

  /** A client that has done nothing but queue one request with a body. */
  predicate Asked(s: Session, x: Item) {
    && !s.server && s.flowControl && s.nextStreamId == 1 && s.streams == map[] && s.hand.None? && s.active.None? && s.receiving.None?
    && s.obPq == [] && s.obSsPq == [x] && x.frame == SynStream(0, false, false, 0, 0, true) && x.pri == 0
    && !s.goaway.Any() && s.numOutgoing < s.cfg.remoteMax && 0 <= s.cfg.remoteInit <= INT32_MAX
  }

  /** Its SYN_STREAM is being sent. */
  predicate Opening1(s: Session, x: Item) {
    && !s.server && s.flowControl && s.streams.Keys == {1} && s.hand.None? && s.receiving.None?
    && s.streams[1] == Stream(0, Initial, false, false, None, false, s.cfg.remoteInit, 0, 0, 0)
    && s.obPq == [] && s.obSsPq == []
    && s.active == Some(Active(x.(frame := SynStream(1, false, false, 0, 0, true)), 18, 0, 0, 0))
  }

  lemma PullSyn(s: Session, x: Item, read: ReadResult)
    requires Asked(s, x)
    ensures Opening1(Pull(s, read, Some(18)), x) && Pull(s, read, Some(18)).cfg == s.cfg
  {
    assert [x][1..] == [];
  }

  lemma SynGoesOut(s: Session, x: Item, read: ReadResult)
    requires Opening1(s, x)
    ensures var r := Push(s, 18, read);
      && Ready(r, 1) && r.cfg == s.cfg && r.streams.Keys == {1}
      && r.streams[1] == s.streams[1].(state := Opening)
  {
    var s1 := Charge(s, 18);
    assert s1.active == Some(s.active.value.(offset := 18, calls := 1)) && s1.streams == s.streams;
    SynEffects(s1, x);
  }

  lemma SynEffects(s: Session, x: Item)
    requires !s.server && s.flowControl && s.streams.Keys == {1} && s.hand.None? && s.receiving.None?
    requires s.streams[1].state.Initial? && !s.streams[1].shutRd && !s.streams[1].shutWr && s.streams[1].deferred.None?
    requires s.obPq == [] && s.obSsPq == []
    requires s.active.Some? && s.active.value.item.frame == SynStream(1, false, false, 0, 0, true)
    ensures var r := SentEffects(s);
      && r.streams.Keys == {1} && r.streams[1] == s.streams[1].(state := Opening) && r.cfg == s.cfg && r.hand.None? && r.receiving.None?
      && r.obPq == [Item(s.nextSeq, s.streams[1].pri, Data(1, true, false))] && r.obSsPq == [] && !r.server && r.flowControl
  {
  }

  lemma AsksFirst(s: Session)
    requires s == Init(false, true)
    ensures var r := Step(s, SubmitSynStream(false, false, 0, 0, true));
      Asked(r, Item(0, 0, SynStream(0, false, false, 0, 0, true))) && r.cfg == s.cfg
  {
  }

  /** A client gets there: a request with a body, its SYN_STREAM sent. */
  lemma ReadyReached() returns (s: Session, inputs: seq<Input>)
    ensures Reachable(s, false, true, inputs) && Ready(s, 1) && !s.cfg.overSent && s.cfg == Init(false, true).cfg
    ensures s.streams[1] == Stream(0, Opening, false, false, None, false, s.cfg.remoteInit, 0, 0, 0)
  {
    var s0 := Init(false, true);
    var none: seq<Input>, x := [], Item(0, 0, SynStream(0, false, false, 0, 0, true));
    var i1, i2, i3 := SubmitSynStream(false, false, 0, 0, true), PullItem(ReadDeferred, Some(18)), PushBytes(18, ReadDeferred);
    AsksFirst(s0);
    var s1 := Step(s0, i1);
    StepPull(s1, ReadDeferred, Some(18));
    PullSyn(s1, x, ReadDeferred);
    var s2 := Step(s1, i2);
    StepPush(s2, 18, ReadDeferred);
    SynGoesOut(s2, x, ReadDeferred);
    s, inputs := Step(s2, i3), none + [i1] + [i2] + [i3];
    RunSnoc(s0, none, i1);
    RunSnoc(s0, none + [i1], i2);
    RunSnoc(s0, none + [i1] + [i2], i3);
  }

  /** So a run exists in which a DATA frame is packed past the grant. */
  lemma OverSendHappens() returns (inputs: seq<Input>)
    ensures Run(Init(false, true), inputs).cfg.overSent && EverAnnounced(Init(false, true), inputs)
  {
    var s, done := ReadyReached();
    var big := RecvSettings([(SETTINGS_INITIAL_WINDOW_SIZE, 0xffff_ffff)]);
    var small := RecvSettings([(SETTINGS_INITIAL_WINDOW_SIZE, 0)]);
    var pack := PullItem(ReadBytes(1, false), None);
    OverSendExact(s, 1, 0xffff_ffff, 0, 1);
    inputs := done + [big] + [small] + [pack];
    RunSnoc(Init(false, true), done, big);
    RunSnoc(Init(false, true), done + [big], small);
    RunSnoc(Init(false, true), done + [big] + [small], pack);
    if !EverAnnounced(Init(false, true), inputs) {
      WithinGrant(Run(Init(false, true), inputs), false, inputs);
    }
  }
}
