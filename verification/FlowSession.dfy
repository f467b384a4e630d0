/** How the states of two sessions represent a state of the protocol of `FlowControl` for one
    stream, and the session operations behind its steps. */
module FlowSession {
  import opened Base
  import opened SessionTypes
  import opened SessionInvariant
  import opened SessionMoves
  import opened SessionCore
  import opened SessionSend
  import opened SessionReceive
  import opened SessionRuns
  import opened Ports
  import FC = FlowControl

  /** The frame buffer of `s` as the protocol sees it: a DATA frame of this stream, or not. */
  predicate BufferMatches(p: FC.Pending, a: Option<Active>, id: int) {
    match p
    case NoFrame => !(a.Some? && a.value.item.frame.Data? && a.value.item.frame.id == id)
    case Frame(payload, sent, calls) =>
      && a.Some? && a.value.item.frame.Data? && a.value.item.frame.id == id
      && a.value.word == payload && a.value.length == payload + 8 && a.value.offset == sent && a.value.calls == calls
  }

  /** `s` is the sending end of `n` for the stream `id`, which it may not have opened yet. */
  predicate Sends(n: FC.Net, s: Session, id: int) {
    && s.flowControl && WindowOf(s, id) == n.window && s.cfg.remoteInit == n.remoteInit <= INT32_MAX
    && BufferMatches(n.pending, s.active, id)
  }

  /** `s` is the receiving end of `n` for the stream `id`, which it may not know yet. */
  predicate Receives(n: FC.Net, s: Session, id: int) {
    s.flowControl && RecvOf(s, id) == n.recv && s.cfg.localInit == n.localInit && n.auto == !s.cfg.noAutoWindowUpdate
  }

  // ---------- the sending end ----------

  /** A successful send callback for a DATA frame is the protocol's SendCall step, up to what
      happens once the frame is out. */
  lemma ChargeIsStep(n: FC.Net, s: Session, id: int, k: nat)
    requires Sends(n, s, id) && id in s.streams && n.pending.Frame? && FC.Enabled(n, FC.SendCall(k))
    ensures var n', r := FC.Step(n, FC.SendCall(k)), Charge(s, k);
      && id in r.streams && r.streams[id].window == n'.window && r.cfg.remoteInit == n'.remoteInit
      && (n'.pending.Frame? ==> Sends(n', r, id))
      && (n'.pending.NoFrame? <==> r.active.value.offset == r.active.value.length)
  {
  }

  /** A WINDOW_UPDATE: the window moves as in the protocol, and a FLOW_CONTROL_ERROR is
      queued exactly when the protocol raises its error. */
  lemma CreditIsStep(n: FC.Net, s: Session, id: StreamId, d: StreamId)
    requires Sends(n, s, id) && id in s.streams && n.ctlWire != [] && n.ctlWire[0] == FC.Credit(d)
    ensures var n', r := FC.Step(n, FC.Deliver), OnWindowUpdate(s, id, d);
      && Sends(n', r, id)
      && (n'.error <==> n.error || s.streams[id].window + d > INT32_MAX)
      && if s.streams[id].window + d > INT32_MAX then r == AddFrame(s, RstStream(id, FLOW_CONTROL_ERROR)) else r.nextSeq == s.nextSeq
  {
  }

  /** The effect of a new initial window size on the sender. */
  lemma SettingSends(n: FC.Net, s: Session, r: Session, id: int, v: nat)
    requires Sends(n, s, id) && n.ctlWire != [] && n.ctlWire[0] == FC.Setting(v) && v <= INT32_MAX
    requires r.flowControl && r.cfg.remoteInit == v && r.active == s.active
    requires WindowOf(r, id) == WindowOf(s, id) + v - ToInt32(s.cfg.remoteInit)
    ensures Sends(FC.Step(n, FC.Deliver), r, id)
  {
  }

  // ---------- the receiving end ----------

  /** Counting received payload, and the automatic WINDOW_UPDATE it queues. */
  lemma CountIsStep(n: FC.Net, s: Session, id: int, k: nat)
    requires Receives(n, s, id) && id in s.streams
    ensures var n', r := FC.Count(n, k), CountReceived(s, id, k);
      && Receives(n', r, id)
      && if n'.outq == n.outq then r.nextSeq == s.nextSeq
         else r == AddFrame(PutStream(s, id, s.streams[id].(recvWindow := 0)), WindowUpdate(id, n'.outq[|n.outq|].delta))
  {
  }

  /** spdylay_submit_window_update. */
  lemma GrantIsStep(n: FC.Net, s: Session, id: StreamId, d: nat)
    requires Receives(n, s, id) && id in s.streams && FC.Enabled(n, FC.GrantCredit(d))
    ensures var r := OnSubmitWindowUpdate(s, id, d);
      && Receives(FC.Step(n, FC.GrantCredit(d)), r, id)
      && r == AddFrame(PutStream(s, id, s.streams[id].(recvWindow := r.streams[id].recvWindow)), WindowUpdate(id, d))
  {
  }
}
