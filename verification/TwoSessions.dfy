/** What flow control promises of two sessions connected by two wires: every run of theirs, as
    far as one stream is concerned, is a run of the protocol. */
module TwoSessions {
  import opened Base
  import opened SessionTypes
  import opened SessionInvariant
  import opened SessionCore
  import opened SessionReceive
  import opened SessionRuns
  import opened Ports
  import opened FlowSession
  import opened Endpoints
  import FC = FlowControl

  // ---------- one move ----------

  /** Window that a move loses: payload charged again, received bytes not counted, a refused WINDOW_UPDATE. */
  function LostBy(p: Pair, id: StreamId, m: Move): int {
    match m
    case AtA(i) => ChargedAgain(p.a, i, id)
    case AtB(i) => DroppedBy(p.b, i, id)
    case DataArrives => 0
    case ControlArrives => if Refuses(p, id) then p.ctl[0].delta else 0
  }

  /** Credit a move grants beyond what has been received. */
  function ExtraBy(p: Pair, id: StreamId, m: Move): int {
    if m.AtB? then UnbackedBy(p.b, m.i, id) else 0
  }

  /** The WINDOW_UPDATE at the head of the control wire overflows the window. */
  predicate Refuses(p: Pair, id: StreamId) {
    p.ctl != [] && p.ctl[0].WindowUpdate? && WindowOf(p.a, id) + p.ctl[0].delta > INT32_MAX
  }

  /** The receiver's application grants only what has been received. */
  predicate Backed(p: Pair, id: StreamId, m: Move) {
    m.AtB? ==> GrantsBacked(p.b, m.i, id)
  }

  /** DATA frames of the stream go out in one send callback each. */
  predicate Whole(p: Pair, id: StreamId, m: Move) {
    m.AtA? ==> SendsWhole(p.a, m.i, id)
  }

  /** The receiver never announces a smaller initial window. */
  predicate Rising(p: Pair, m: Move) {
    m.AtB? ==> Raises(p.b, m.i)
  }

  /** The receiver does not switch automatic WINDOW_UPDATE off. */
  predicate Automatic(m: Move) {
    m.AtB? ==> KeepsAuto(m.i)
  }

  /** What a move, or a run, does to the account and whether it keeps to the rules. */
  datatype Tally = Tally(lost: int, extra: int, backed: bool, whole: bool, rising: bool, automatic: bool)
  {
    function Plus(t: Tally): Tally {
      Tally(lost + t.lost, extra + t.extra, backed && t.backed, whole && t.whole, rising && t.rising, automatic && t.automatic)
    }
  }

  function MoveTally(p: Pair, id: StreamId, m: Move): Tally {
    Tally(LostBy(p, id, m), ExtraBy(p, id, m), Backed(p, id, m), Whole(p, id, m), Rising(p, m), Automatic(m))
  }

  /** A run of the protocol with that tally. */
  ghost predicate Tracks(n: FC.Net, es: seq<FC.Event>, t: Tally) {
    && FC.CanRun(n, es) && FC.Run(n, es).lost == n.lost + t.lost && FC.Run(n, es).extra == n.extra + t.extra
    && (t.backed ==> FC.Prudent(n, es)) && (t.whole ==> FC.WholeFrames(n, es))
    && (t.rising ==> FC.NeverLowered(n, es)) && (t.automatic ==> FC.StaysAuto(es))
  }

  /** A move to `q` is a sequence of protocol steps. */
  ghost predicate MoveRuns(n: FC.Net, es: seq<FC.Event>, p: Pair, id: StreamId, m: Move, q: Pair) {
    Tracks(n, es, MoveTally(p, id, m)) && Matches(FC.Run(n, es), q, id)
  }

  lemma MoveAtA(n: FC.Net, p: Pair, id: StreamId, i: Input) returns (es: seq<FC.Event>)
    requires Matches(n, p, id) && Live(p, id) && Allowed(p, id, AtA(i)) && Live(Next(p, id, AtA(i)), id)
    ensures MoveRuns(n, es, p, id, AtA(i), Next(p, id, AtA(i)))
  {
    es := StepAtA(n, p.a, i, id);
    BySender(n, es, p, Step(p.a, i), id, i);
  }

  lemma BySender(n: FC.Net, es: seq<FC.Event>, p: Pair, a: Session, id: StreamId, i: Input)
    requires Matches(n, p, id) && SenderRuns(n, es, a, id, DataOut(p.a, i, id), ChargedAgain(p.a, i, id))
    requires a.hand.None? && Inv(a) && SendsOpen(a, id) && (SendsWhole(p.a, i, id) ==> FC.WholeFrames(n, es))
    ensures MoveRuns(n, es, p, id, AtA(i), WithA(p.(data := p.data + DataOut(p.a, i, id)), a, id))
  {
    SenderMatches(n, FC.Run(n, es), p, a, DataOut(p.a, i, id), id);
  }

  lemma SenderMatches(n: FC.Net, n': FC.Net, p: Pair, a: Session, out: seq<nat>, id: StreamId)
    requires Matches(n, p, id) && SenderMoved(n, n') && Sends(n', a, id) && n'.dataWire == n.dataWire + out
    requires a.hand.None? && Inv(a) && SendsOpen(a, id)
    ensures Matches(n', WithA(p.(data := p.data + out), a, id), id)
  {
    Append(Started(p.b, id), p.data, out);
  }

  lemma Append(a: seq<nat>, b: seq<nat>, c: seq<nat>)
    ensures a + b + c == a + (b + c)
  {
  }

  lemma MoveAtB(n: FC.Net, p: Pair, id: StreamId, i: Input) returns (es: seq<FC.Event>)
    requires Matches(n, p, id) && Live(p, id) && Allowed(p, id, AtB(i)) && Live(Next(p, id, AtB(i)), id)
    ensures MoveRuns(n, es, p, id, AtB(i), Next(p, id, AtB(i)))
  {
    es := StepAtB(n, p.b, i, p.data, id);
    ByReceiver(n, es, p, Step(p.b, i), id, i);
  }

  lemma ByReceiver(n: FC.Net, es: seq<FC.Event>, p: Pair, b: Session, id: StreamId, i: Input)
    requires Matches(n, p, id) && InputRuns(n, es, p.b, i, b, p.data, id) && b.hand.None? && Inv(b)
    ensures MoveRuns(n, es, p, id, AtB(i), WithB(p.(ctl := p.ctl + ControlOut(p.b, i, id)), b, id))
  {
    ReceiverJoins(n, FC.Run(n, es), p, b, id, i);
  }

  lemma ReceiverJoins(n: FC.Net, n': FC.Net, p: Pair, b: Session, id: StreamId, i: Input)
    requires Matches(n, p, id) && ReceiverMoved(n, n') && AtReceiver(n', b, p.data, id) && b.hand.None? && Inv(b)
    requires n'.ctlWire == n.ctlWire + Leaves(p.b, i, id)
    ensures Matches(n', WithB(p.(ctl := p.ctl + ControlOut(p.b, i, id)), b, id), id)
  {
    ControlJoins(p.ctl, p.b, i, id);
    ReceiverMatches(n, n', p, b, p.ctl + ControlOut(p.b, i, id), p.data, id);
  }

  lemma ReceiverMatches(n: FC.Net, n': FC.Net, p: Pair, b: Session, ctl: seq<Frame>, data: seq<nat>, id: StreamId)
    requires Matches(n, p, id) && ReceiverMoved(n, n') && AtReceiver(n', b, data, id) && b.hand.None? && Inv(b)
    requires n'.ctlWire == Meanings(ctl, id) && forall f <- ctl :: Meaning(f, id).Some?
    ensures Matches(n', WithB(p.(ctl := ctl, data := data), b, id), id)
  {
  }

  /** What leaves the receiver joins the control wire. */
  lemma ControlJoins(ctl: seq<Frame>, s: Session, i: Input, id: int)
    requires forall f <- ctl :: Meaning(f, id).Some?
    ensures var fs := ctl + ControlOut(s, i, id);
      (forall f <- fs :: Meaning(f, id).Some?) && Meanings(fs, id) == Meanings(ctl, id) + Leaves(s, i, id)
  {
    if ControlOut(s, i, id) == [] {
      assert ctl + [] == ctl && Meanings(ctl, id) + [] == Meanings(ctl, id);
    } else {
      MeaningsSnoc(ctl, s.active.value.item.frame, id);
    }
  }

  lemma MoveData(n: FC.Net, p: Pair, id: StreamId) returns (es: seq<FC.Event>)
    requires Matches(n, p, id) && Live(p, id) && Allowed(p, id, DataArrives)
    ensures MoveRuns(n, es, p, id, DataArrives, Next(p, id, DataArrives))
  {
    assert p.data == [p.data[0]] + p.data[1..];
    es := HeadAtB(n, p.b, p.data[0], p.data[1..], id);
    StepHead(p.b, id, false, p.data[0]);
    ByHead(n, es, p, Step(p.b, RecvDataHead(id, false, p.data[0])), id);
  }

  lemma ByHead(n: FC.Net, es: seq<FC.Event>, p: Pair, b: Session, id: StreamId)
    requires Matches(n, p, id) && p.data != [] && b.hand.None? && Inv(b) && ReceiverRuns(n, es, b, p.data[1..], id, [], 0, 0)
    requires FC.Prudent(n, es) && FC.NeverLowered(n, es) && FC.StaysAuto(es)
    ensures MoveRuns(n, es, p, id, DataArrives, WithB(p.(data := p.data[1..]), b, id))
  {
    assert n.ctlWire + [] == n.ctlWire;
    ReceiverMatches(n, FC.Run(n, es), p, b, p.ctl, p.data[1..], id);
  }

  lemma MoveControl(n: FC.Net, p: Pair, id: StreamId) returns (es: seq<FC.Event>)
    requires Matches(n, p, id) && Live(p, id) && Allowed(p, id, ControlArrives) && FC.Conserved(n)
    requires Live(Next(p, id, ControlArrives), id)
    ensures MoveRuns(n, es, p, id, ControlArrives, Next(p, id, ControlArrives))
  {
    MeaningsHead(p.ctl, id);
    assert p.ctl[0] in p.ctl;
    if p.ctl[0].WindowUpdate? {
      CreditArrives(n, p.a, p.ctl[0], id);
    } else {
      SettingArrives(n, p.a, p.ctl[0], id);
    }
    es := ByDelivery(n, p, Step(p.a, Arrival(p.ctl[0], id)), id);
  }

  lemma ByDelivery(n: FC.Net, p: Pair, a: Session, id: StreamId) returns (es: seq<FC.Event>)
    requires Matches(n, p, id) && p.ctl != [] && n.ctlWire != [] && n.ctlWire[0] == Meaning(p.ctl[0], id).value
    requires Sends(FC.Step(n, FC.Deliver), a, id) && a.hand.None? && Inv(a) && Stays(p.a, a, id)
    ensures MoveRuns(n, es, p, id, ControlArrives, WithA(p.(ctl := p.ctl[1..]), a, id))
  {
    es := [FC.Deliver];
    One(n, FC.Deliver);
    DeliverIs(n);
    DeliverMatches(n, FC.Step(n, FC.Deliver), p, a, id);
  }

  lemma DeliverIs(n: FC.Net)
    requires n.ctlWire != []
    ensures var r, c := FC.Step(n, FC.Deliver), n.ctlWire[0];
      && r == n.(window := r.window, remoteInit := r.remoteInit, error := r.error, lost := r.lost, ctlWire := n.ctlWire[1..])
      && r.lost == n.lost + if c.Credit? && n.window + c.delta > INT32_MAX then c.delta else 0
  {
  }

  lemma DeliverMatches(n: FC.Net, n': FC.Net, p: Pair, a: Session, id: StreamId)
    requires Matches(n, p, id) && p.ctl != [] && n.ctlWire != [] && Sends(n', a, id) && a.hand.None? && Inv(a) && Stays(p.a, a, id)
    requires n' == n.(window := n'.window, remoteInit := n'.remoteInit, error := n'.error, lost := n'.lost, ctlWire := n.ctlWire[1..])
    ensures Matches(n', WithA(p.(ctl := p.ctl[1..]), a, id), id)
  {
    MeaningsHead(p.ctl, id);
    assert n.ctlWire[1..] == Meanings(p.ctl[1..], id);
  }

  /** Any move. */
  lemma Simulate(n: FC.Net, p: Pair, id: StreamId, m: Move) returns (es: seq<FC.Event>)
    requires Matches(n, p, id) && Live(p, id) && Allowed(p, id, m) && Live(Next(p, id, m), id) && FC.Conserved(n)
    ensures MoveRuns(n, es, p, id, m, Next(p, id, m))
  {
    match m
    case AtA(i) => es := MoveAtA(n, p, id, i);
    case AtB(i) => es := MoveAtB(n, p, id, i);
    case DataArrives => es := MoveData(n, p, id);
    case ControlArrives => es := MoveControl(n, p, id);
  }

  // ---------- runs ----------

  /** A run during which the stream, once open, is neither FIN'd nor reset. */
  ghost predicate LiveRun(p: Pair, id: StreamId, ms: seq<Move>)
    decreases ms
  {
    && p.a.hand.None? && p.b.hand.None? && Live(p, id)
    && (ms == [] || (Allowed(p, id, ms[0]) && LiveRun(Next(p, id, ms[0]), id, ms[1..])))
  }

  ghost function RunPair(p: Pair, id: StreamId, ms: seq<Move>): Pair
    requires LiveRun(p, id, ms)
    decreases ms
  {
    if ms == [] then p else RunPair(Next(p, id, ms[0]), id, ms[1..])
  }

  ghost function RunTally(p: Pair, id: StreamId, ms: seq<Move>): Tally
    requires LiveRun(p, id, ms)
    decreases ms
  {
    if ms == [] then Tally(0, 0, true, true, true, true)
    else MoveTally(p, id, ms[0]).Plus(RunTally(Next(p, id, ms[0]), id, ms[1..]))
  }

  /** Every run of the two sessions is a run of the protocol. */
  lemma {:induction false} Refines(n: FC.Net, p: Pair, id: StreamId, ms: seq<Move>) returns (es: seq<FC.Event>)
    requires Matches(n, p, id) && LiveRun(p, id, ms) && FC.Conserved(n)
    ensures Tracks(n, es, RunTally(p, id, ms)) && Matches(FC.Run(n, es), RunPair(p, id, ms), id)
    decreases ms
  {
    if ms == [] {
      es := [];
      Nothing(n);
    } else {
      var first := Simulate(n, p, id, ms[0]);
      FC.CreditConservation(n, first);
      var rest := Refines(FC.Run(n, first), Next(p, id, ms[0]), id, ms[1..]);
      es := first + rest;
      TracksMore(n, first, rest, MoveTally(p, id, ms[0]), RunTally(Next(p, id, ms[0]), id, ms[1..]));
    }
  }

  lemma TracksMore(n: FC.Net, first: seq<FC.Event>, rest: seq<FC.Event>, t: Tally, u: Tally)
    requires Tracks(n, first, t) && Tracks(FC.Run(n, first), rest, u)
    ensures Tracks(n, first + rest, t.Plus(u)) && FC.Run(n, first + rest) == FC.Run(FC.Run(n, first), rest)
  {
    FC.RunConcat(n, first, rest);
  }

  // ---------- what holds of two sessions ----------

  /** Two new sessions, of which either may be the one that sends DATA. */
  predicate New(p: Pair) {
    && p.a == Init(p.a.server, true) && p.b == Init(!p.a.server, true)
    && |p.data| == 0 && |p.ctl| == 0 && !p.atA && !p.atB
  }

  lemma Starts(p: Pair, id: StreamId) returns (n: FC.Net)
    requires New(p)
    ensures Matches(n, p, id) && FC.IsNew(n) && n.auto && FC.Conserved(n)
  {
    var size := FC.INITIAL_WINDOW_SIZE;
    n := FC.Net(size, size, FC.NoFrame, [], 0, size, true, [], [], false, 0, 0);
    InitOk(p.a.server, true);
    InitOk(p.b.server, true);
    NewMatches(n, p, id);
  }

  lemma NewMatches(n: FC.Net, p: Pair, id: StreamId)
    requires New(p) && FC.IsNew(n) && n.auto && Inv(p.a) && Inv(p.b)
    ensures Matches(n, p, id)
  {
    assert |Waiting(p.b, id)| == 0 && |Started(p.b, id)| == 0 && |Meanings(p.ctl, id)| == 0;
    assert n.outq == Waiting(p.b, id) && n.dataWire == Started(p.b, id) + p.data;
  }

  lemma {:induction false} CreditsPermute(a: seq<FC.Control>, b: seq<FC.Control>)
    requires multiset(a) == multiset(b)
    ensures FC.Credits(a) == FC.Credits(b)
    decreases |a|
  {
    if |a| == 0 {
      assert |multiset(b)| == 0;
    } else {
      assert a == [a[0]] + a[1..];
      var i := CreditIn(b, a[0], a[1..]);
      WithoutOne(b, i, a[0], a[1..]);
      CreditsPermute(a[1..], b[..i] + b[i + 1..]);
      CreditsWithout(b, i);
    }
  }

  lemma CreditsWithout(b: seq<FC.Control>, i: nat)
    requires i < |b|
    ensures FC.Credits(b) == FC.Credits(b[..i] + b[i + 1..]) + if b[i].Credit? then b[i].delta else 0
  {
    CreditsAround(b[..i], b[i], b[i + 1..]);
    SplitAt(b, i);
  }

  lemma SplitAt(b: seq<FC.Control>, i: nat)
    requires i < |b|
    ensures b[..i] + ([b[i]] + b[i + 1..]) == b
  {
  }

  lemma CreditsAround(a: seq<FC.Control>, c: FC.Control, b: seq<FC.Control>)
    ensures FC.Credits(a + ([c] + b)) == FC.Credits(a + b) + if c.Credit? then c.delta else 0
  {
    FC.CreditsConcat(a, b);
    FC.CreditsConcat(a, [c] + b);
    FC.CreditsConcat([c], b);
    FC.CreditsOne(c);
  }

  /** Payload of the frame being sent, once it has been charged. */
  function ChargedPart(s: Session, id: int): int {
    if SendsData(s, id) && s.active.value.calls > 0 then s.active.value.length - 8 else 0
  }

  /** Where the sender's initial window is: in its window, in DATA being sent, on the wire and
      being received, in what the receiver has not credited, and in credit under way. */
  function Account(p: Pair, id: StreamId): int {
    WindowOf(p.a, id) + ChargedPart(p.a, id) + FC.Total(Started(p.b, id) + p.data) + RecvOf(p.b, id)
      + FC.Credits(Waiting(p.b, id)) + FC.Credits(Meanings(p.ctl, id))
  }

  lemma AccountIs(n: FC.Net, p: Pair, id: StreamId)
    requires Matches(n, p, id)
    ensures Account(p, id) == FC.Accounted(n)
  {
    CreditsPermute(n.outq, Waiting(p.b, id));
  }

  /** What runs of the protocol from a new stream lead to. */
  lemma NewRun(n: FC.Net, es: seq<FC.Event>, t: Tally)
    requires FC.IsNew(n) && n.auto && Tracks(n, es, t)
    ensures var r := FC.Run(n, es);
      && FC.Conserved(r) && (t.backed ==> FC.Sound(r)) && (t.backed && t.whole ==> r.lost == 0)
      && (t.backed && t.whole && t.rising && t.automatic && FC.Quiescent(r) ==> 2 * r.window > r.localInit == r.remoteInit)
  {
    FC.InitHolds(n);
    FC.CreditConservation(n, es);
    if t.backed {
      FC.HonestPeer(n, es);
      FC.LostExact(n, es);
      if t.whole {
        FC.WholeIsOnce(n, es);
        if t.rising && t.automatic {
          FC.NoDeadlock(n, es);
        }
      }
    }
  }

  /** A run of two new sessions is a run of a new stream. */
  lemma Follows(p: Pair, id: StreamId, ms: seq<Move>) returns (n: FC.Net, es: seq<FC.Event>)
    requires New(p) && LiveRun(p, id, ms)
    ensures FC.IsNew(n) && n.auto && Tracks(n, es, RunTally(p, id, ms)) && Matches(FC.Run(n, es), RunPair(p, id, ms), id)
  {
    n := Starts(p, id);
    es := Refines(n, p, id, ms);
  }

  /** In every run of two sessions the initial window is accounted for to the byte, up to what
      is lost and what is granted without backing. With backed grants nothing is granted too
      much, and with whole frames as well nothing is lost. */
  lemma CreditIsConserved(p: Pair, id: StreamId, ms: seq<Move>)
    requires New(p) && LiveRun(p, id, ms)
    ensures var q, t := RunPair(p, id, ms), RunTally(p, id, ms);
      && Account(q, id) + t.lost == q.a.cfg.remoteInit + t.extra && t.lost >= 0 && t.extra >= 0
      && (t.backed ==> t.extra == 0) && (t.backed && t.whole ==> t.lost == 0)
  {
    var start, es := Follows(p, id, ms);
    NewRun(start, es, RunTally(p, id, ms));
    AccountIs(FC.Run(start, es), RunPair(p, id, ms), id);
  }

  /** The window and the count of received bytes stay within 32 bits. */
  predicate Fits(p: Pair, id: StreamId) {
    -INT32_MAX <= WindowOf(p.a, id) <= p.a.cfg.remoteInit <= INT32_MAX && 0 <= RecvOf(p.b, id) <= INT32_MAX
  }

  lemma SoundFits(n: FC.Net, p: Pair, id: StreamId)
    requires Matches(n, p, id) && FC.Sound(n) && n.lost == 0
    ensures Fits(p, id)
  {
    FC.CreditsNonNegative(n.outq);
    FC.CreditsNonNegative(n.ctlWire);
  }

  /** With backed grants and whole frames no window leaves the 32 bits the sessions keep it in. */
  lemma WindowsFit(p: Pair, id: StreamId, ms: seq<Move>)
    requires New(p) && LiveRun(p, id, ms) && RunTally(p, id, ms).backed && RunTally(p, id, ms).whole
    ensures Fits(RunPair(p, id, ms), id)
  {
    var start, es := Follows(p, id, ms);
    NewRun(start, es, RunTally(p, id, ms));
    var n := FC.Run(start, es);
    SoundFits(n, RunPair(p, id, ms), id);
  }

  /** The WINDOW_UPDATE at the head of the control wire is accepted. */
  ghost predicate AcceptsCredit(s: Session, id: StreamId, d: StreamId) {
    id in s.streams ==>
      OnWindowUpdate(s, id, d) == SetWindow(s, id, s.streams[id].window + d, s.streams[id].credited + d)
  }

  lemma SoundAccepts(n: FC.Net, p: Pair, id: StreamId, d: StreamId)
    requires Matches(n, p, id) && FC.Sound(n) && p.ctl != [] && p.ctl[0] == WindowUpdate(id, d)
    ensures AcceptsCredit(p.a, id, d)
  {
    MeaningsHead(p.ctl, id);
    FC.CreditFits(n);
    if id in p.a.streams {
      CreditAccepted(p.a, id, d);
    }
  }

  lemma CreditAccepted(s: Session, id: StreamId, d: StreamId)
    requires s.flowControl && id in s.streams && s.streams[id].window + d <= INT32_MAX
    ensures OnWindowUpdate(s, id, d) == SetWindow(s, id, s.streams[id].window + d, s.streams[id].credited + d)
  {
  }

  /** With backed grants, a WINDOW_UPDATE that arrives never raises FLOW_CONTROL_ERROR. */
  lemma NoFlowControlError(p: Pair, id: StreamId, ms: seq<Move>, d: StreamId)
    requires New(p) && LiveRun(p, id, ms) && RunTally(p, id, ms).backed
    ensures var q := RunPair(p, id, ms); q.ctl != [] && q.ctl[0] == WindowUpdate(id, d) ==> AcceptsCredit(q.a, id, d)
  {
    var q := RunPair(p, id, ms);
    var start, es := Follows(p, id, ms);
    NewRun(start, es, RunTally(p, id, ms));
    var n := FC.Run(start, es);
    if q.ctl != [] && q.ctl[0] == WindowUpdate(id, d) {
      SoundAccepts(n, q, id, d);
    }
  }

  /** Nothing of the stream is being sent, under way or being received. */
  predicate Drained(p: Pair, id: StreamId) {
    !SendsData(p.a, id) && |p.data| == |Started(p.b, id)| == |Waiting(p.b, id)| == |p.ctl| == 0
  }

  lemma DrainedIsQuiescent(n: FC.Net, p: Pair, id: StreamId)
    requires Matches(n, p, id) && Drained(p, id)
    ensures FC.Quiescent(n)
  {
    assert |n.outq| == |multiset(n.outq)| == |multiset(Waiting(p.b, id))| == 0;
  }

  /** The sender may go on, with more than half of the window both ends agree on. */
  predicate HalfOpen(p: Pair, id: StreamId) {
    && 2 * WindowOf(p.a, id) > p.b.cfg.localInit == p.a.cfg.remoteInit
    && (id in p.a.streams ==> NextDataRead(p.a, p.a.streams[id]) > 0)
  }

  /** With automatic WINDOW_UPDATE left on, backed grants, whole frames and an initial window
      that is never lowered, a drained stream has more than half the window to send. */
  lemma CannotDeadlock(p: Pair, id: StreamId, ms: seq<Move>)
    requires New(p) && LiveRun(p, id, ms)
    requires var t := RunTally(p, id, ms); t.backed && t.whole && t.rising && t.automatic
    ensures Drained(RunPair(p, id, ms), id) ==> HalfOpen(RunPair(p, id, ms), id)
  {
    var q := RunPair(p, id, ms);
    var start, es := Follows(p, id, ms);
    NewRun(start, es, RunTally(p, id, ms));
    var n := FC.Run(start, es);
    if Drained(q, id) {
      DrainedIsQuiescent(n, q, id);
      QuiescentIsOpen(n, q, id);
    }
  }

  lemma QuiescentIsOpen(n: FC.Net, p: Pair, id: StreamId)
    requires Matches(n, p, id) && 2 * n.window > n.localInit == n.remoteInit && FC.Conserved(n)
    ensures HalfOpen(p, id)
  {
  }
}
