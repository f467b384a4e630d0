/** SPDY/3 flow control of one stream direction as a two-endpoint protocol (section 2.6.8 of
    draft-mbelshe-httpbis-spdy-00).

    The sender keeps `window` against the initial window size it last heard of; the
    receiver counts the bytes it has not yet credited in `recv`.  DATA frames travel one
    way, WINDOW_UPDATE and SETTINGS frames the other, each through a FIFO wire; before the
    wire the receiver's frames wait in its outbound queue, which may let SETTINGS overtake. */
module FlowControl {
  import opened Base

  /** SPDYLAY_INITIAL_WINDOW_SIZE of both endpoints. */
  const INITIAL_WINDOW_SIZE: int := 1024 * 1024

  datatype Control = Credit(delta: int) | Setting(value: nat)

  /** A DATA frame in the sender's frame buffer: payload length, bytes of the whole frame
      handed to the transport so far, and how many send callbacks took some. */
  datatype Pending = NoFrame | Frame(payload: nat, sent: nat, calls: nat)

  datatype Net = Net(
    window: int,
    remoteInit: int,
    pending: Pending,
    /** DATA payloads on the wire, oldest first; the head may be partly consumed. */
    dataWire: seq<nat>,
    recv: int,
    localInit: int,
    auto: bool,
    outq: seq<Control>,
    ctlWire: seq<Control>,
    /** A FLOW_CONTROL_ERROR has been raised. */
    error: bool,
    /** History: window charged more than once for a frame, bytes dropped by the saturating
        counter, and credit refused. */
    lost: int,
    /** History: credit the application granted beyond what had been received. */
    extra: int
  )

  /** A stream that has just been opened between two new sessions. */
  predicate IsNew(n: Net) {
    && n.window == n.remoteInit == n.localInit == INITIAL_WINDOW_SIZE && n.recv == 0
    && n.pending.NoFrame? && |n.dataWire| == |n.outq| == |n.ctlWire| == 0
    && !n.error && n.lost == 0 && n.extra == 0
  }

  datatype Event =
    | Pack(payload: nat)            // the read callback filled a DATA frame
    | SendCall(sent: nat)           // one successful send callback for that frame
    | Receive(bytes: nat)           // the receiver processes bytes of the oldest DATA frame
    | GrantCredit(delta: nat)       // spdylay_submit_window_update by the application
    | ChangeInit(value: nat)        // spdylay_submit_settings with INITIAL_WINDOW_SIZE
    | Switch(on: bool)              // spdylay_session_set_option: automatic WINDOW_UPDATE on or off
    | Transmit(index: nat)          // the receiver sends one queued control frame
    | Deliver                       // the sender processes the oldest control frame

  /** Steps the application does not take by itself. */
  predicate IsProtocol(e: Event) { !e.GrantCredit? && !e.ChangeInit? && !e.Switch? }

  predicate Enabled(n: Net, e: Event) {
    match e
    case Pack(k) => n.pending.NoFrame? && ReadLimit(n.window) > 0 && k <= ReadLimit(n.window)
    case SendCall(k) => n.pending.Frame? && n.pending.sent + k <= n.pending.payload + 8
    case Receive(k) => n.dataWire != [] && k <= n.dataWire[0] && (k == 0 ==> n.dataWire[0] == 0)
    case GrantCredit(d) => 0 < d <= INT32_MAX
    case ChangeInit(v) => v <= INT32_MAX
    case Switch(_) => true
    case Transmit(i) => i < |n.outq| && (n.outq[i].Setting? ==> forall j :: 0 <= j < i ==> n.outq[j].Credit?)
    case Deliver => n.ctlWire != []
  }

  function Min(a: int, b: int): int { if a <= b then a else b }

  /** spdylay_session_update_recv_window_size: count, saturating, and credit by half. */
  function Count(n: Net, k: nat): Net {
    var full := n.recv + k;
    var kept := if n.recv > INT32_MAX - k then INT32_MAX else full;
    var n1 := n.(recv := kept, lost := n.lost + full - kept);
    if n.auto && kept * 2 >= n.localInit
    then n1.(outq := n.outq + [Credit(kept)], recv := 0)
    else n1
  }

  /** Take `k` bytes off the oldest DATA frame; a frame used up leaves the wire. */
  function Consume(wire: seq<nat>, k: nat): seq<nat>
    requires wire != [] && k <= wire[0]
  {
    if wire[0] == k then wire[1..] else [wire[0] - k] + wire[1..]
  }

  function Step(n: Net, e: Event): Net
    requires Enabled(n, e)
  {
    match e
    case Pack(k) => n.(pending := Frame(k, 0, 0))
    case SendCall(k) =>
      var Frame(len, sent, calls) := n.pending;
      var n1 := n.(window := n.window - len, lost := n.lost + if calls > 0 then len else 0);
      if sent + k == len + 8
      then n1.(pending := NoFrame, dataWire := n.dataWire + [len])
      else n1.(pending := Frame(len, sent + k, calls + 1))
    case Receive(k) =>
      var n1 := n.(dataWire := Consume(n.dataWire, k));
      if k > 0 then Count(n1, k) else n1
    case GrantCredit(d) =>
      n.(recv := n.recv - Min(d, n.recv), outq := n.outq + [Credit(d)], extra := n.extra + d - Min(d, n.recv))
    case ChangeInit(v) => n.(localInit := v, outq := n.outq + [Setting(v)])
    case Switch(v) => n.(auto := v)
    case Transmit(i) =>
      n.(outq := n.outq[..i] + n.outq[i + 1..], ctlWire := n.ctlWire + [n.outq[i]])
    case Deliver =>
      var n1 := n.(ctlWire := n.ctlWire[1..]);
      match n.ctlWire[0]
      case Credit(d) =>
        if INT32_MAX - d < n.window then n1.(error := true, lost := n.lost + d) else n1.(window := n.window + d)
      case Setting(v) => n1.(window := v - (n.remoteInit - n.window), remoteInit := v)
  }

  predicate CanRun(n: Net, es: seq<Event>)
    decreases es
  {
    es == [] || (Enabled(n, es[0]) && CanRun(Step(n, es[0]), es[1..]))
  }

  function Run(n: Net, es: seq<Event>): Net
    requires CanRun(n, es)
    decreases es
  {
    if es == [] then n else Run(Step(n, es[0]), es[1..])
  }

  // ---------- credit conservation ----------

  function Total(xs: seq<nat>): nat {
    if xs == [] then 0 else xs[0] + Total(xs[1..])
  }

  function Credits(cs: seq<Control>): int {
    if cs == [] then 0 else (if cs[0].Credit? then cs[0].delta else 0) + Credits(cs[1..])
  }

  /** The part of the frame buffer already taken off the window. */
  function Charged(p: Pending): int {
    if p.Frame? && p.calls > 0 then p.payload else 0
  }

  /** Where the sender's initial window currently is. */
  function Accounted(n: Net): int {
    n.window + Charged(n.pending) + Total(n.dataWire) + n.recv + Credits(n.outq) + Credits(n.ctlWire)
  }

  predicate Conserved(n: Net) {
    && Accounted(n) + n.lost == n.remoteInit + n.extra
    && 0 <= n.recv <= INT32_MAX && n.lost >= 0 && n.extra >= 0
    && 0 <= n.remoteInit <= INT32_MAX && 0 <= n.localInit <= INT32_MAX
    && Bounded(n.outq) && Bounded(n.ctlWire)
    && (n.pending.Frame? ==> n.pending.sent <= n.pending.payload + 8)
  }

  predicate Bounded(cs: seq<Control>) {
    forall c <- cs :: if c.Credit? then 0 <= c.delta <= INT32_MAX else c.value <= INT32_MAX
  }

  lemma {:induction false} TotalAppend(xs: seq<nat>, x: nat)
    ensures Total(xs + [x]) == Total(xs) + x
  {
    if xs != [] {
      TotalAppend(xs[1..], x);
      assert (xs + [x])[1..] == xs[1..] + [x];
    }
  }

  lemma {:induction false} CreditsConcat(a: seq<Control>, b: seq<Control>)
    ensures Credits(a + b) == Credits(a) + Credits(b)
  {
    if a == [] {
      assert a + b == b;
    } else {
      CreditsConcat(a[1..], b);
      assert (a + b)[1..] == a[1..] + b;
    }
  }

  lemma CreditsOne(c: Control)
    ensures Credits([c]) == if c.Credit? then c.delta else 0
  {
    assert [c][1..] == [];
  }

  lemma CountKeeps(n: Net, k: nat)
    requires 0 <= n.recv <= INT32_MAX && Bounded(n.outq)
    ensures var r := Count(n, k);
      && r.recv + Credits(r.outq) + r.lost == n.recv + Credits(n.outq) + n.lost + k
      && 0 <= r.recv <= INT32_MAX && r.lost >= n.lost && Bounded(r.outq)
      && r == n.(recv := r.recv, outq := r.outq, lost := r.lost)
  {
    var full := n.recv + k;
    var kept := if n.recv > INT32_MAX - k then INT32_MAX else full;
    CreditsConcat(n.outq, [Credit(kept)]);
    CreditsOne(Credit(kept));
  }

  lemma TransmitKeeps(n: Net, i: nat)
    requires i < |n.outq|
    ensures Credits(n.outq[..i] + n.outq[i + 1..]) + Credits(n.ctlWire + [n.outq[i]])
         == Credits(n.outq) + Credits(n.ctlWire)
  {
    CreditsConcat(n.outq[..i], n.outq[i + 1..]);
    CreditsConcat(n.ctlWire, [n.outq[i]]);
    CreditsConcat(n.outq[..i], [n.outq[i]] + n.outq[i + 1..]);
    CreditsConcat([n.outq[i]], n.outq[i + 1..]);
    assert n.outq == n.outq[..i] + ([n.outq[i]] + n.outq[i + 1..]);
  }

  lemma StepConserves(n: Net, e: Event)
    requires Conserved(n) && Enabled(n, e)
    ensures Conserved(Step(n, e))
  {
    match e
    case Pack(k) =>
    case SendCall(k) => TotalAppend(n.dataWire, n.pending.payload);
    case Receive(k) => ReceiveConserves(n, k);
    case GrantCredit(_) => QueueingConserves(n, e);
    case ChangeInit(_) => QueueingConserves(n, e);
    case Switch(_) =>
    case Transmit(i) => TransmitConserves(n, i);
    case Deliver => DeliverConserves(n);
  }

  lemma QueueingConserves(n: Net, e: Event)
    requires Conserved(n) && Enabled(n, e) && (e.GrantCredit? || e.ChangeInit?)
    ensures Conserved(Step(n, e))
  {
    var c := if e.GrantCredit? then Credit(e.delta) else Setting(e.value);
    CreditsConcat(n.outq, [c]);
    CreditsOne(c);
  }

  lemma ReceiveConserves(n: Net, k: nat)
    requires Conserved(n) && Enabled(n, Receive(k))
    ensures Conserved(Step(n, Receive(k)))
  {
    var n1 := n.(dataWire := Consume(n.dataWire, k));
    assert Total(n1.dataWire) == Total(n.dataWire) - k by {
      if n.dataWire[0] != k {
        assert n1.dataWire[1..] == n.dataWire[1..];
      }
    }
    if k > 0 {
      CountKeeps(n1, k);
    }
  }

  lemma TransmitConserves(n: Net, i: nat)
    requires Conserved(n) && Enabled(n, Transmit(i))
    ensures Conserved(Step(n, Transmit(i)))
  {
    TransmitKeeps(n, i);
    assert n.outq[i] in n.outq;
  }

  lemma DeliverConserves(n: Net)
    requires Conserved(n) && n.ctlWire != []
    ensures Conserved(Step(n, Deliver))
  {
    assert n.ctlWire[0] in n.ctlWire;
    assert Bounded(n.ctlWire[1..]);
  }

  /** In every run, with partial sends, application credit and SETTINGS changes alike, the
      sender's initial window is accounted for to the byte. */
  lemma {:induction false} CreditConservation(n: Net, es: seq<Event>)
    requires Conserved(n) && CanRun(n, es)
    ensures Conserved(Run(n, es))
    decreases es
  {
    if es != [] {
      StepConserves(n, es[0]);
      CreditConservation(Step(n, es[0]), es[1..]);
    }
  }

  // ---------- an honest peer raises no alarm ----------

  /** The application never grants more than it has received and not credited. */
  predicate Prudent(n: Net, es: seq<Event>)
    requires CanRun(n, es)
    decreases es
  {
    es == [] || ((es[0].GrantCredit? ==> es[0].delta <= n.recv) && Prudent(Step(n, es[0]), es[1..]))
  }

  /** Every byte and credit that is somewhere between the two windows. */
  function InFlight(n: Net): int {
    (if n.pending.Frame? then n.pending.payload else 0) + Total(n.dataWire) + n.recv
      + Credits(n.outq) + Credits(n.ctlWire)
  }

  predicate Sound(n: Net) {
    Conserved(n) && !n.error && n.extra == 0 && InFlight(n) <= INT32_MAX
  }

  lemma {:induction false} CreditsNonNegative(cs: seq<Control>)
    requires Bounded(cs)
    ensures Credits(cs) >= 0
  {
    if cs != [] {
      assert cs[0] in cs;
      CreditsNonNegative(cs[1..]);
    }
  }

  lemma StepSound(n: Net, e: Event)
    requires Sound(n) && Enabled(n, e) && (e.GrantCredit? ==> e.delta <= n.recv)
    ensures Sound(Step(n, e))
  {
    StepConserves(n, e);
    CreditsNonNegative(n.outq);
    CreditsNonNegative(n.ctlWire);
    match e
    case Pack(k) =>
    case SendCall(k) => TotalAppend(n.dataWire, n.pending.payload);
    case Receive(k) => ReceiveInFlight(n, k);
    case GrantCredit(d) =>
      CreditsConcat(n.outq, [Credit(d)]);
      CreditsOne(Credit(d));
    case ChangeInit(v) =>
      CreditsConcat(n.outq, [Setting(v)]);
      CreditsOne(Setting(v));
    case Switch(_) =>
    case Transmit(i) => TransmitKeeps(n, i);
    case Deliver => DeliverSound(n);
  }

  lemma DeliverSound(n: Net)
    requires Sound(n) && n.ctlWire != [] && Conserved(Step(n, Deliver)) && Credits(n.outq) >= 0
    ensures Sound(Step(n, Deliver))
  {
    assert n.ctlWire[0] in n.ctlWire;
    CreditsNonNegative(n.ctlWire[1..]);
  }

  lemma ReceiveInFlight(n: Net, k: nat)
    requires Sound(n) && Enabled(n, Receive(k))
    ensures InFlight(Step(n, Receive(k))) == InFlight(n) && Step(n, Receive(k)).lost == n.lost
  {
    CreditsNonNegative(n.outq);
    CreditsNonNegative(n.ctlWire);
    var n1 := n.(dataWire := Consume(n.dataWire, k));
    assert Total(n1.dataWire) == Total(n.dataWire) - k by {
      if n.dataWire[0] != k {
        assert n1.dataWire[1..] == n.dataWire[1..];
      }
    }
    assert n.recv + k <= INT32_MAX;
    if k > 0 {
      CountKeeps(n1, k);
    }
  }

  /** The credit next to be delivered fits the window. */
  lemma CreditFits(n: Net)
    requires Sound(n) && n.ctlWire != [] && n.ctlWire[0].Credit?
    ensures n.window + n.ctlWire[0].delta <= INT32_MAX
  {
    StepSound(n, Deliver);
  }

  /** However frames are cut, no run against a receiver that only gives back what it got
      raises FLOW_CONTROL_ERROR, and the saturating counter never saturates. */
  lemma {:induction false} HonestPeer(n: Net, es: seq<Event>)
    requires Sound(n) && CanRun(n, es) && Prudent(n, es)
    ensures Sound(Run(n, es))
    decreases es
  {
    if es != [] {
      StepSound(n, es[0]);
      HonestPeer(Step(n, es[0]), es[1..]);
    }
  }

  /** No send callback finds the payload of its frame charged already. */
  predicate ChargedOnce(n: Net, es: seq<Event>)
    requires CanRun(n, es)
    decreases es
  {
    es == [] ||
    ((es[0].SendCall? ==> n.pending.calls == 0 || n.pending.payload == 0) && ChargedOnce(Step(n, es[0]), es[1..]))
  }

  lemma StepLoses(n: Net, e: Event)
    requires Sound(n) && Enabled(n, e)
    ensures Step(n, e).lost == n.lost + if e.SendCall? && n.pending.calls > 0 then n.pending.payload else 0
  {
    if e.Receive? {
      ReceiveInFlight(n, e.bytes);
    } else if e.Deliver? {
      StepSound(n, e);
    }
  }

  /** Losses only add up, and nothing is lost exactly when every frame is charged once: in
      particular the saturating counter never loses anything. */
  lemma {:induction false} LostExact(n: Net, es: seq<Event>)
    requires Sound(n) && CanRun(n, es) && Prudent(n, es)
    ensures Run(n, es).lost >= n.lost
    ensures Run(n, es).lost == n.lost <==> ChargedOnce(n, es)
    decreases es
  {
    if es != [] {
      StepSound(n, es[0]);
      StepLoses(n, es[0]);
      LostExact(Step(n, es[0]), es[1..]);
    }
  }

  lemma ThreeSteps(n: Net, a: Event, b: Event, c: Event)
    requires Enabled(n, a) && Enabled(Step(n, a), b) && Enabled(Step(Step(n, a), b), c)
    ensures CanRun(n, [a, b, c]) && Run(n, [a, b, c]) == Step(Step(Step(n, a), b), c)
  {
    var n1 := Step(n, a);
    var n2 := Step(n1, b);
    OneStep(n2, c);
    assert [b, c][1..] == [c];
    assert CanRun(n1, [b, c]) && Run(n1, [b, c]) == Step(n2, c);
    assert [a, b, c][1..] == [b, c];
  }

  lemma OneStep(n: Net, c: Event)
    requires Enabled(n, c)
    ensures CanRun(n, [c]) && Run(n, [c]) == Step(n, c)
  {
    var rest := [c][1..];
    assert rest == [];
    assert CanRun(Step(n, c), rest) && Run(Step(n, c), rest) == Step(n, c);
  }

  /** A grant that meets an empty control path raises it exactly when it takes the window past
      the largest 32-bit value, whatever is buffered or on the data wire. */
  lemma OverGrantExact(n: Net, d: nat)
    requires |n.outq| == |n.ctlWire| == 0 && !n.error && 0 < d <= INT32_MAX
    ensures CanRun(n, [GrantCredit(d), Transmit(0), Deliver])
    ensures Run(n, [GrantCredit(d), Transmit(0), Deliver]).error <==> n.window + d > INT32_MAX
  {
    var n1 := Step(n, GrantCredit(d));
    assert n1.outq == [Credit(d)];
    assert Step(n1, Transmit(0)).ctlWire == [Credit(d)];
    ThreeSteps(n, GrantCredit(d), Transmit(0), Deliver);
  }

  // ---------- the two ends agree on the initial window ----------

  function LastSetting(cs: seq<Control>, initial: int): int {
    if cs == [] then initial
    else LastSetting(cs[1..], if cs[0].Setting? then cs[0].value else initial)
  }

  /** What the sender will end up with is what the receiver last announced. */
  predicate InSync(n: Net) {
    n.localInit == LastSetting(n.outq, LastSetting(n.ctlWire, n.remoteInit))
  }

  lemma {:induction false} LastSettingConcat(a: seq<Control>, b: seq<Control>, d: int)
    ensures LastSetting(a + b, d) == LastSetting(b, LastSetting(a, d))
    decreases a
  {
    if a == [] {
      assert a + b == b;
    } else {
      LastSettingConcat(a[1..], b, if a[0].Setting? then a[0].value else d);
      assert (a + b)[1..] == a[1..] + b;
    }
  }

  lemma {:induction false} LastSettingNone(cs: seq<Control>, d: int)
    requires forall c <- cs :: c.Credit?
    ensures LastSetting(cs, d) == d
    decreases cs
  {
    if cs != [] {
      assert cs[0] in cs;
      LastSettingNone(cs[1..], d);
    }
  }

  lemma LastSettingOne(c: Control, d: int)
    ensures LastSetting([c], d) == if c.Setting? then c.value else d
  {
    assert [c][1..] == [];
  }

  lemma TransmitInSync(n: Net, i: nat)
    requires InSync(n) && Enabled(n, Transmit(i))
    ensures InSync(Step(n, Transmit(i)))
  {
    var a, c, b := n.outq[..i], n.outq[i], n.outq[i + 1..];
    var d := LastSetting(n.ctlWire, n.remoteInit);
    LastSettingConcat(n.ctlWire, [c], n.remoteInit);
    LastSettingOne(c, d);
    LastSettingConcat(a, b, LastSetting(n.ctlWire + [c], n.remoteInit));
    LastSettingConcat(a, [c] + b, d);
    LastSettingConcat([c], b, LastSetting(a, d));
    LastSettingOne(c, LastSetting(a, d));
    assert n.outq == a + ([c] + b);
    if c.Setting? {
      assert forall x <- a :: x.Credit?;
      LastSettingNone(a, d);
      LastSettingNone(a, c.value);
    }
  }

  lemma StepInSync(n: Net, e: Event)
    requires InSync(n) && Enabled(n, e)
    ensures InSync(Step(n, e))
  {
    var d := LastSetting(n.ctlWire, n.remoteInit);
    match e
    case Pack(_) =>
    case SendCall(_) =>
    case Receive(k) =>
      if k > 0 {
        var r := Count(n.(dataWire := Consume(n.dataWire, k)), k);
        if r.outq != n.outq {
          LastSettingConcat(n.outq, [r.outq[|n.outq|]], d);
          LastSettingOne(r.outq[|n.outq|], LastSetting(n.outq, d));
        }
      }
    case GrantCredit(g) =>
      LastSettingConcat(n.outq, [Credit(g)], d);
      LastSettingOne(Credit(g), LastSetting(n.outq, d));
    case ChangeInit(v) =>
      LastSettingConcat(n.outq, [Setting(v)], d);
      LastSettingOne(Setting(v), LastSetting(n.outq, d));
    case Switch(_) =>
    case Transmit(i) => TransmitInSync(n, i);
    case Deliver =>
  }

  lemma {:induction false} AlwaysInSync(n: Net, es: seq<Event>)
    requires InSync(n) && CanRun(n, es)
    ensures InSync(Run(n, es))
    decreases es
  {
    if es != [] {
      StepInSync(n, es[0]);
      AlwaysInSync(Step(n, es[0]), es[1..]);
    }
  }

  // ---------- runs put together ----------

  lemma {:induction false} RunConcat(n: Net, a: seq<Event>, b: seq<Event>)
    requires CanRun(n, a) && CanRun(Run(n, a), b)
    ensures CanRun(n, a + b) && Run(n, a + b) == Run(Run(n, a), b)
    ensures Prudent(n, a) && Prudent(Run(n, a), b) ==> Prudent(n, a + b)
    ensures WholeFrames(n, a) && WholeFrames(Run(n, a), b) ==> WholeFrames(n, a + b)
    ensures NeverLowered(n, a) && NeverLowered(Run(n, a), b) ==> NeverLowered(n, a + b)
    ensures StaysAuto(a) && StaysAuto(b) ==> StaysAuto(a + b)
    decreases a
  {
    if a == [] {
      assert a + b == b;
    } else {
      RunConcat(Step(n, a[0]), a[1..], b);
      assert (a + b)[1..] == a[1..] + b;
    }
  }

  // ---------- deadlock ----------

  /** Nothing is buffered, queued or on a wire. */
  predicate Quiescent(n: Net) {
    n.pending.NoFrame? && n.dataWire == [] && n.outq == [] && n.ctlWire == []
  }

  /** Exactly when a sender with nothing outstanding can go on: in every run. */
  lemma QuiescentExact(start: Net, es: seq<Event>)
    requires Conserved(start) && InSync(start) && CanRun(start, es)
    ensures var n := Run(start, es);
      Quiescent(n) ==>
        && n.window == n.localInit + n.extra - n.recv - n.lost
        && (Enabled(n, Pack(1)) <==> n.recv + n.lost < n.localInit + n.extra)
  {
    CreditConservation(start, es);
    AlwaysInSync(start, es);
  }

  /** A sender that cannot go on then waits for ever, unless an application steps in. */
  lemma StuckForGood(n: Net, e: Event)
    requires Quiescent(n) && n.window <= 0 && IsProtocol(e)
    ensures !Enabled(n, e)
  {
  }

  /** As long as something is buffered, queued or on a wire, the protocol can go on by itself. */
  lemma Progress(n: Net) returns (e: Event)
    requires !Quiescent(n) && Conserved(n)
    ensures IsProtocol(e) && !e.Pack? && Enabled(n, e) && Weight(Step(n, e)) < Weight(n)
  {
    if n.pending.Frame? {
      e := SendCall(n.pending.payload + 8 - n.pending.sent);
    } else if n.dataWire != [] {
      e := Receive(n.dataWire[0]);
    } else if n.outq != [] {
      e := Transmit(0);
    } else {
      e := Deliver;
    }
  }

  /** How much is under way. */
  function Weight(n: Net): nat {
    (if n.pending.Frame? then 4 else 0) + 3 * |n.dataWire| + 2 * |n.outq| + |n.ctlWire|
  }

  /** Left to itself, the protocol drains: from every state there is a run of protocol steps
      to one in which nothing is under way. */
  lemma {:induction false} Drains(n: Net) returns (es: seq<Event>)
    requires Conserved(n)
    ensures CanRun(n, es) && Quiescent(Run(n, es)) && forall e <- es :: IsProtocol(e) && !e.Pack?
    decreases Weight(n)
  {
    if Quiescent(n) {
      es := [];
    } else {
      var e := Progress(n);
      StepConserves(n, e);
      var more := Drains(Step(n, e));
      es := [e] + more;
      assert es[1..] == more;
    }
  }

  /** Every DATA frame leaves in one send callback. */
  predicate WholeFrames(n: Net, es: seq<Event>)
    requires CanRun(n, es)
    decreases es
  {
    es == [] ||
    ((es[0].SendCall? ==> es[0].sent == n.pending.payload + 8) && WholeFrames(Step(n, es[0]), es[1..]))
  }

  lemma {:induction false} WholeIsOnce(n: Net, es: seq<Event>)
    requires CanRun(n, es) && WholeFrames(n, es) && (n.pending.Frame? ==> n.pending.calls == 0)
    ensures ChargedOnce(n, es)
    decreases es
  {
    if es != [] {
      WholeIsOnce(Step(n, es[0]), es[1..]);
    }
  }

  /** Automatic WINDOW_UPDATE is never switched off. */
  predicate StaysAuto(es: seq<Event>) {
    forall e <- es :: e.Switch? ==> e.on
  }

  /** The receiver never announces a smaller initial window than before. */
  predicate NeverLowered(n: Net, es: seq<Event>)
    requires CanRun(n, es)
    decreases es
  {
    es == [] ||
    ((es[0].ChangeInit? ==> es[0].value >= n.localInit) && NeverLowered(Step(n, es[0]), es[1..]))
  }

  /** Automatic crediting leaves less than half the window uncredited. */
  predicate Generous(n: Net) {
    && n.auto && n.lost == 0 && (n.recv == 0 || 2 * n.recv < n.localInit)
    && (n.pending.Frame? ==> n.pending.calls == 0)
  }

  lemma {:induction false} StaysGenerous(n: Net, es: seq<Event>)
    requires Sound(n) && Generous(n) && CanRun(n, es)
    requires Prudent(n, es) && WholeFrames(n, es) && NeverLowered(n, es) && StaysAuto(es)
    ensures Generous(Run(n, es)) && Run(n, es).localInit >= n.localInit
    decreases es
  {
    if es != [] {
      var e := es[0];
      assert e in es && StaysAuto(es[1..]);
      if e.Receive? {
        ReceiveInFlight(n, e.bytes);
      }
      StepSound(n, e);
      StaysGenerous(Step(n, e), es[1..]);
    }
  }

  /** With automatic WINDOW_UPDATE, whole-frame sends and an initial window that is never
      lowered, whenever everything has drained the sender holds more than half the window. */
  lemma NoDeadlock(start: Net, es: seq<Event>)
    requires Sound(start) && InSync(start) && Generous(start) && start.localInit > 0 && CanRun(start, es)
    requires Prudent(start, es) && WholeFrames(start, es) && NeverLowered(start, es) && StaysAuto(es)
    ensures var n := Run(start, es);
      Quiescent(n) ==> 2 * n.window > n.localInit == n.remoteInit && Enabled(n, Pack(1))
  {
    HonestPeer(start, es);
    StaysGenerous(start, es);
    QuiescentExact(start, es);
    AlwaysInSync(start, es);
  }

  /** A new stream starts out in all of these states. */
  lemma InitHolds(n: Net)
    requires IsNew(n)
    ensures Sound(n) && InSync(n) && (n.auto ==> Generous(n))
  {
  }

  /** Lowering it is harmless exactly while it stays above what has not been credited or is
      lost: otherwise the stream is stuck for good (`StuckForGood`). */
  lemma LoweringExact(n: Net, v: nat)
    requires Conserved(n) && InSync(n) && Quiescent(n) && v <= INT32_MAX
    ensures CanRun(n, [ChangeInit(v), Transmit(0), Deliver])
    ensures var r := Run(n, [ChangeInit(v), Transmit(0), Deliver]);
      Quiescent(r) && (r.window > 0 <==> n.recv + n.lost < v + n.extra)
  {
    var n1 := Step(n, ChangeInit(v));
    assert n1.outq == [Setting(v)];
    assert Step(n1, Transmit(0)).ctlWire == [Setting(v)];
    ThreeSteps(n, ChangeInit(v), Transmit(0), Deliver);
  }

  /** Send callbacks that take so many bytes each. */
  function SendCalls(cuts: seq<nat>): seq<Event> {
    if cuts == [] then [] else [SendCall(cuts[0])] + SendCalls(cuts[1..])
  }

  lemma CallsCons(n: Net, cuts: seq<nat>)
    requires cuts != [] && Enabled(n, SendCall(cuts[0])) && CanRun(Step(n, SendCall(cuts[0])), SendCalls(cuts[1..]))
    ensures CanRun(n, SendCalls(cuts))
    ensures Run(n, SendCalls(cuts)) == Run(Step(n, SendCall(cuts[0])), SendCalls(cuts[1..]))
  {
    assert SendCalls(cuts)[1..] == SendCalls(cuts[1..]);
  }

  /** A frame cut over any number of send callbacks costs its payload with each of them and is
      credited once: the window comes back short by the payload for every callback but the first. */
  lemma {:induction false} CutFrameLeaks(n: Net, cuts: seq<nat>)
    requires n.pending.Frame? && cuts != [] && cuts[|cuts| - 1] > 0 && n.pending.sent + Total(cuts) == n.pending.payload + 8
    ensures CanRun(n, SendCalls(cuts))
    ensures var r, len := Run(n, SendCalls(cuts)), n.pending.payload;
      && r.window == n.window - |cuts| * len && r.dataWire == n.dataWire + [len] && r.pending.NoFrame?
      && r.lost == n.lost + (|cuts| - if n.pending.calls == 0 then 1 else 0) * len
    decreases cuts
  {
    var n1 := Step(n, SendCall(cuts[0]));
    if |cuts| == 1 {
      assert cuts[1..] == [] && Total(cuts) == cuts[0];
    } else {
      LastCounts(cuts[1..]);
      assert cuts[1..][|cuts| - 2] == cuts[|cuts| - 1];
      CutFrameLeaks(n1, cuts[1..]);
      assert |cuts| * n.pending.payload == n.pending.payload + (|cuts| - 1) * n.pending.payload;
    }
    CallsCons(n, cuts);
  }

  lemma {:induction false} LastCounts(cuts: seq<nat>)
    requires cuts != [] && cuts[|cuts| - 1] > 0
    ensures Total(cuts) > 0
  {
    if |cuts| > 1 {
      assert cuts[1..][|cuts| - 2] == cuts[|cuts| - 1];
      LastCounts(cuts[1..]);
    }
  }
}
