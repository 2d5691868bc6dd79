/** The LED protocol: applications, the core state machine and the device wrapper exchange messages
    over three first-in first-out queues. */
module LedProtocol {
  import opened JsonValue
  import opened Sequences

  const ST_TERM := 2
  const ST_INIT := 12301
  const ST_SEND_TO_DEVICE := 12302
  const ST_SEND_ACK := 12303

  const EV_SEND_TO_CORE_NO_ACK := 12351
  const EV_SEND_TO_DEVICE := 12352
  const EV_SEND_TO_DEVICE_NO_ACK := 12352
  const EV_SEND_TO_CORE := 12353
  const EV_SEND_TO_APP := 12354
  const EV_SEND_TO_CORE_DEV_ACK := 12355

  const MSG_TYPE_GLOW_LED := 0

  /** The five texts that the programs put into messages. */
  datatype Text = NoAckText | RequestText | GlowText | DeviceText | AckText

  datatype Msg = Msg(session: int, kind: int, state: int, event: int, text: Text)

  /** The three requests an application can make. */
  datatype Request = GlowLed | GlowLedWithFsmAck | GlowLedWithBoardAck

  function RequestEvent(r: Request): int {
    match r
    case GlowLed => EV_SEND_TO_CORE_NO_ACK
    case GlowLedWithFsmAck => EV_SEND_TO_CORE
    case GlowLedWithBoardAck => EV_SEND_TO_CORE_DEV_ACK
  }

  function RequestMsg(r: Request, session: int): Msg {
    Msg(session, MSG_TYPE_GLOW_LED, ST_INIT, RequestEvent(r), if r == GlowLed then NoAckText else RequestText)
  }

  /** The queues and the core's globals; `waiting` counts the applications blocked on their queue. The
      last three fields are the history: requests written, messages read by applications and by the device. */
  datatype World = World(core: seq<Msg>, app: seq<Msg>, device: seq<Msg>, state: int, event: int, waiting: nat,
    sent: seq<Msg>, delivered: seq<Msg>, glowed: seq<Msg>)

  const START := World([], [], [], ST_INIT, 0, 0, [], [], [])

  // ----- the core: what a message does

  datatype Handler = InitLed | SendAck

  /** The transition table. */
  function HandlerFor(state: int, event: int): Option<Handler> {
    if state == ST_INIT && event in {EV_SEND_TO_CORE_NO_ACK, EV_SEND_TO_CORE, EV_SEND_TO_CORE_DEV_ACK}
    then Some(InitLed)
    else if state == ST_SEND_TO_DEVICE && event == EV_SEND_TO_DEVICE then Some(SendAck)
    else None
  }

  function ToDevice(m: Msg): Msg {
    m.(state := ST_SEND_TO_DEVICE, event := EV_SEND_TO_DEVICE)
  }

  function Ack(m: Msg): Msg {
    m.(state := ST_SEND_ACK, event := EV_SEND_TO_APP)
  }

  /** `Init_led` looks at the event of the message, not at the variable. */
  function InitLedOn(w: World, m: Msg): World {
    if m.event == EV_SEND_TO_CORE_NO_ACK then w.(core := w.core + [ToDevice(m)])
    else if m.event == EV_SEND_TO_CORE then w.(app := w.app + [Ack(m)], device := w.device + [ToDevice(m)])
    else if m.event == EV_SEND_TO_CORE_DEV_ACK then w.(device := w.device + [ToDevice(m).(text := GlowText)])
    else w
  }

  /** `Send_ack` tests two constants, so it always acknowledges. */
  function SendAckOn(w: World, m: Msg): World {
    w.(app := w.app + [Ack(m).(text := AckText)])
  }

  /** One turn of the core's loop. A message of another type leaves the state and event as they are. */
  function CoreNext(w: World): World
    requires w.core != []
  {
    var m := w.core[0];
    var read := w.(core := w.core[1..]);
    var seen := if m.kind == MSG_TYPE_GLOW_LED then read.(state := m.state, event := m.event) else read;
    match HandlerFor(seen.state, seen.event)
    case Some(InitLed) => InitLedOn(seen, m).(state := 0)
    case Some(SendAck) => SendAckOn(seen, m).(state := 0)
    case None => seen
  }

  /** One turn of the device wrapper: the message goes back as it came, with another text. */
  function DeviceNext(w: World): World
    requires w.device != []
  {
    var m := w.device[0];
    w.(device := w.device[1..], core := w.core + [m.(kind := MSG_TYPE_GLOW_LED, text := DeviceText)],
      glowed := w.glowed + [m])
  }

  // ----- runs

  datatype Action = Ask(r: Request, session: int) | Receive | Core | Device

  predicate Enabled(w: World, a: Action) {
    match a
    case Ask(_, _) => true
    case Receive => w.waiting > 0 && w.app != []
    case Core => w.state != ST_TERM && w.core != []
    case Device => w.device != []
  }

  function Next(w: World, a: Action): World
    requires Enabled(w, a)
  {
    match a
    case Ask(r, session) =>
      w.(core := w.core + [RequestMsg(r, session)], sent := w.sent + [RequestMsg(r, session)],
         waiting := w.waiting + if r == GlowLed then 0 else 1)
    case Receive => w.(app := w.app[1..], delivered := w.delivered + [w.app[0]], waiting := w.waiting - 1)
    case Core => CoreNext(w)
    case Device => DeviceNext(w)
  }

  /** The world after some actions, in any interleaving; `None` when one of them was blocked. */
  function Run(w: World, actions: seq<Action>): Option<World>
    decreases |actions|
  {
    if actions == [] then Some(w)
    else if !Enabled(w, actions[0]) then None
    else Run(Next(w, actions[0]), actions[1..])
  }

  ghost predicate Reachable(w: World) {
    exists actions :: Run(START, actions) == Some(w)
  }

  // ----- the shape of messages

  predicate IsRequest(m: Msg) {
    && m.kind == MSG_TYPE_GLOW_LED && m.state == ST_INIT
    && m.event in {EV_SEND_TO_CORE_NO_ACK, EV_SEND_TO_CORE, EV_SEND_TO_CORE_DEV_ACK} && m.text != AckText
  }

  predicate IsCommand(m: Msg) {
    m.kind == MSG_TYPE_GLOW_LED && m.state == ST_SEND_TO_DEVICE && m.event == EV_SEND_TO_DEVICE
  }

  predicate IsAck(m: Msg) {
    m.state == ST_SEND_ACK && m.event == EV_SEND_TO_APP
  }

  predicate WellFormed(w: World) {
    && (forall m :: m in w.core ==> IsRequest(m) || IsCommand(m))
    && (forall m :: m in w.device ==> IsCommand(m))
    && (forall m :: m in w.app ==> IsAck(m))
    && (forall m :: m in w.delivered ==> IsAck(m))
    && (forall m :: m in w.sent ==> IsRequest(m))
    && w.state in {ST_INIT, 0}
  }

  lemma StepWellFormed(w: World, a: Action)
    requires WellFormed(w) && Enabled(w, a)
    ensures WellFormed(Next(w, a))
  {
    if a == Core { assert w.core[0] in w.core; }
    if a == Device { assert w.device[0] in w.device; }
  }

  // ----- conservation

  /** Messages of one session, or of all of them. */
  predicate InScope(m: Msg, s: Option<int>) {
    s.Some? ==> m.session == s.value
  }

  /** What message `m` still owes to session `s`: acknowledgements of the request itself (`late` false),
      or those that the core sends when a command comes back to it (`late`). */
  function Owes(m: Msg, s: Option<int>, late: bool): nat {
    if !InScope(m, s) then 0
    else if m.state == ST_SEND_ACK then (if (m.text == AckText) == late then 1 else 0)
    else if late then 1
    else if m.state == ST_INIT && m.event == EV_SEND_TO_CORE then 1
    else 0
  }

  function Owed(ms: seq<Msg>, s: Option<int>, late: bool): nat {
    if ms == [] then 0 else Owes(ms[0], s, late) + Owed(ms[1..], s, late)
  }

  /** How often message `m` will still make the device glow. */
  function Glows(m: Msg, s: Option<int>): nat {
    if InScope(m, s) && m.state == ST_INIT && m.event != EV_SEND_TO_CORE_NO_ACK then 1 else 0
  }

  function ToGlow(ms: seq<Msg>, s: Option<int>): nat {
    if ms == [] then 0 else Glows(ms[0], s) + ToGlow(ms[1..], s)
  }

  function OfSession(ms: seq<Msg>, s: Option<int>): nat {
    if ms == [] then 0 else (if InScope(ms[0], s) then 1 else 0) + OfSession(ms[1..], s)
  }

  lemma {:induction false} OwedAppend(ms: seq<Msg>, m: Msg, s: Option<int>, late: bool)
    ensures Owed(ms + [m], s, late) == Owed(ms, s, late) + Owes(m, s, late)
  {
    if ms == [] {
      assert ms + [m] == [m];
    } else {
      assert (ms + [m])[1..] == ms[1..] + [m];
      OwedAppend(ms[1..], m, s, late);
    }
  }

  lemma {:induction false} ToGlowAppend(ms: seq<Msg>, m: Msg, s: Option<int>)
    ensures ToGlow(ms + [m], s) == ToGlow(ms, s) + Glows(m, s)
    ensures OfSession(ms + [m], s) == OfSession(ms, s) + if InScope(m, s) then 1 else 0
  {
    if ms == [] {
      assert ms + [m] == [m];
    } else {
      assert (ms + [m])[1..] == ms[1..] + [m];
      ToGlowAppend(ms[1..], m, s);
    }
  }

  /** Every acknowledgement owed by the requests of a session is delivered or still under way. */
  predicate AcksConserved(w: World, s: Option<int>, late: bool) {
    Owed(w.sent, s, late) == Owed(w.delivered, s, late) + Owed(w.app, s, late) + Owed(w.core, s, late) +
      Owed(w.device, s, late)
  }

  /** Every glowing asked for has happened, or is still under way. */
  predicate GlowsConserved(w: World, s: Option<int>) {
    ToGlow(w.sent, s) == OfSession(w.glowed, s) + OfSession(w.device, s) + ToGlow(w.core, s)
  }

  /** What one turn of the core does to its queues, message by message. */
  lemma CoreCases(w: World)
    requires WellFormed(w) && w.core != []
    ensures var m, w' := w.core[0], CoreNext(w);
      && (IsCommand(m) || IsRequest(m))
      && w'.sent == w.sent && w'.delivered == w.delivered && w'.glowed == w.glowed
      && w'.core == w.core[1..] + (if m.event == EV_SEND_TO_CORE_NO_ACK then [ToDevice(m)] else [])
      && w'.app == w.app +
        (if IsCommand(m) then [Ack(m).(text := AckText)] else if m.event == EV_SEND_TO_CORE then [Ack(m)] else [])
      && w'.device == w.device + (if m.event == EV_SEND_TO_CORE then [ToDevice(m)]
           else if m.event == EV_SEND_TO_CORE_DEV_ACK then [ToDevice(m).(text := GlowText)] else [])
  {
    assert w.core[0] in w.core;
  }

  lemma CoreConserves(w: World, s: Option<int>, late: bool)
    requires WellFormed(w) && w.core != [] && AcksConserved(w, s, late)
    ensures AcksConserved(CoreNext(w), s, late)
  {
    CoreCases(w);
    hide CoreNext, WellFormed;
    var m := w.core[0];
    if IsCommand(m) {
      OwedAppend(w.app, Ack(m).(text := AckText), s, late);
    } else if m.event == EV_SEND_TO_CORE_NO_ACK {
      OwedAppend(w.core[1..], ToDevice(m), s, late);
    } else if m.event == EV_SEND_TO_CORE {
      OwedAppend(w.app, Ack(m), s, late);
      OwedAppend(w.device, ToDevice(m), s, late);
    } else {
      OwedAppend(w.device, ToDevice(m).(text := GlowText), s, late);
    }
  }

  lemma CoreConservesGlows(w: World, s: Option<int>)
    requires WellFormed(w) && w.core != [] && GlowsConserved(w, s)
    ensures GlowsConserved(CoreNext(w), s)
  {
    CoreCases(w);
    hide CoreNext, WellFormed;
    var m := w.core[0];
    if IsCommand(m) {
    } else if m.event == EV_SEND_TO_CORE_NO_ACK {
      ToGlowAppend(w.core[1..], ToDevice(m), s);
    } else if m.event == EV_SEND_TO_CORE {
      ToGlowAppend(w.device, ToDevice(m), s);
    } else {
      ToGlowAppend(w.device, ToDevice(m).(text := GlowText), s);
    }
  }

  lemma AskConserves(w: World, r: Request, session: int, s: Option<int>, late: bool)
    requires AcksConserved(w, s, late) && GlowsConserved(w, s)
    ensures AcksConserved(Next(w, Ask(r, session)), s, late) && GlowsConserved(Next(w, Ask(r, session)), s)
  {
    hide CoreNext, Owes, Glows, RequestMsg;
    var m := RequestMsg(r, session);
    OwedAppend(w.core, m, s, late);
    OwedAppend(w.sent, m, s, late);
    ToGlowAppend(w.core, m, s);
    ToGlowAppend(w.sent, m, s);
  }

  lemma DeviceConserves(w: World, s: Option<int>, late: bool)
    requires WellFormed(w) && w.device != [] && AcksConserved(w, s, late) && GlowsConserved(w, s)
    ensures AcksConserved(DeviceNext(w), s, late) && GlowsConserved(DeviceNext(w), s)
  {
    var m := w.device[0];
    assert m in w.device;
    OwedAppend(w.core, m.(kind := MSG_TYPE_GLOW_LED, text := DeviceText), s, late);
    ToGlowAppend(w.core, m.(kind := MSG_TYPE_GLOW_LED, text := DeviceText), s);
    ToGlowAppend(w.glowed, m, s);
  }

  lemma StepConserves(w: World, a: Action, s: Option<int>, late: bool)
    requires WellFormed(w) && Enabled(w, a)
    requires AcksConserved(w, s, late) && GlowsConserved(w, s)
    ensures AcksConserved(Next(w, a), s, late) && GlowsConserved(Next(w, a), s)
  {
    hide CoreNext, DeviceNext, WellFormed, RequestMsg;
    match a
    case Ask(r, session) => AskConserves(w, r, session, s, late);
    case Receive => OwedAppend(w.delivered, w.app[0], s, late);
    case Device => DeviceConserves(w, s, late);
    case Core =>
      CoreConserves(w, s, late);
      CoreConservesGlows(w, s);
  }

  // ----- progress

  /** The core and device turns that a message in the core's queue still causes. */
  function CoreTurns(m: Msg): nat {
    if m.state == ST_SEND_TO_DEVICE then 1 else if m.event == EV_SEND_TO_CORE_NO_ACK then 2 else 3
  }

  function CorePotential(ms: seq<Msg>): nat {
    if ms == [] then 0 else CoreTurns(ms[0]) + CorePotential(ms[1..])
  }

  function Potential(w: World): nat {
    CorePotential(w.core) + 2 * |w.device|
  }

  lemma {:induction false} CorePotentialAppend(ms: seq<Msg>, m: Msg)
    ensures CorePotential(ms + [m]) == CorePotential(ms) + CoreTurns(m)
  {
    if ms == [] {
      assert ms + [m] == [m];
    } else {
      assert (ms + [m])[1..] == ms[1..] + [m];
      CorePotentialAppend(ms[1..], m);
    }
  }

  /** Every turn of the core or the device lowers the potential by exactly one; reading an answer leaves it alone. */
  lemma TurnLowersPotential(w: World, a: Action)
    requires WellFormed(w) && Enabled(w, a) && !a.Ask?
    ensures Potential(Next(w, a)) == Potential(w) - if a == Receive then 0 else 1
  {
    if a == Core {
      var m := w.core[0];
      assert m in w.core;
      CorePotentialAppend(w.core[1..], ToDevice(m));
    } else if a == Device {
      var m := w.device[0];
      assert m in w.device;
      CorePotentialAppend(w.core, m.(kind := MSG_TYPE_GLOW_LED, text := DeviceText));
    }
  }

  /** All that the theorems need about a reachable world. */
  ghost predicate Inv(w: World) {
    && WellFormed(w)
    && (forall s, late :: AcksConserved(w, s, late))
    && (forall s :: GlowsConserved(w, s))
    && w.waiting + |w.delivered| == Blocking(w.sent)
  }

  /** The requests that wait for an answer. */
  function Blocking(ms: seq<Msg>): nat {
    if ms == [] then 0 else (if ms[0].event == EV_SEND_TO_CORE_NO_ACK then 0 else 1) + Blocking(ms[1..])
  }

  lemma {:induction false} BlockingAppend(ms: seq<Msg>, m: Msg)
    ensures Blocking(ms + [m]) == Blocking(ms) + if m.event == EV_SEND_TO_CORE_NO_ACK then 0 else 1
  {
    if ms == [] {
      assert ms + [m] == [m];
    } else {
      assert (ms + [m])[1..] == ms[1..] + [m];
      BlockingAppend(ms[1..], m);
    }
  }

  lemma StepInv(w: World, a: Action)
    requires Inv(w) && Enabled(w, a)
    ensures Inv(Next(w, a))
  {
    StepWellFormed(w, a);
    forall s, late ensures AcksConserved(Next(w, a), s, late) { StepConserves(w, a, s, late); }
    forall s ensures GlowsConserved(Next(w, a), s) { StepConserves(w, a, s, false); }
    if a.Ask? { BlockingAppend(w.sent, RequestMsg(a.r, a.session)); }
  }

  lemma {:induction false} RunInv(w: World, actions: seq<Action>)
    requires Inv(w) && Run(w, actions).Some?
    ensures Inv(Run(w, actions).value)
    decreases |actions|
  {
    if actions != [] {
      StepInv(w, actions[0]);
      RunInv(Next(w, actions[0]), actions[1..]);
    }
  }

  lemma ReachableInv(w: World)
    requires Reachable(w)
    ensures Inv(w)
  {
    var actions :| Run(START, actions) == Some(w);
    RunInv(START, actions);
  }

  // ----- the theorems

  /** What a request is worth: two acknowledgements for the one that asks the core, one for each other. */
  function Weight(m: Msg): nat {
    if m.event == EV_SEND_TO_CORE then 2 else 1
  }

  function Worth(ms: seq<Msg>, s: Option<int>): nat {
    if ms == [] then 0 else (if InScope(ms[0], s) then Weight(ms[0]) else 0) + Worth(ms[1..], s)
  }

  lemma {:induction false} RequestsOwe(ms: seq<Msg>, s: Option<int>)
    requires forall m :: m in ms ==> IsRequest(m)
    ensures Owed(ms, s, false) + Owed(ms, s, true) == Worth(ms, s)
    ensures s == None ==> Worth(ms, s) >= Blocking(ms)
  {
    if ms != [] {
      assert ms[0] in ms;
      RequestsOwe(ms[1..], s);
    }
  }

  lemma {:induction false} AcksOwe(ms: seq<Msg>, s: Option<int>)
    requires forall m :: m in ms ==> IsAck(m)
    ensures Owed(ms, s, false) + Owed(ms, s, true) == OfSession(ms, s)
    ensures s == None ==> OfSession(ms, s) == |ms|
  {
    if ms != [] {
      assert ms[0] in ms;
      AcksOwe(ms[1..], s);
    }
  }

  /** In every reachable world, for every session and for all of them together: acknowledgements
      delivered, plus those waiting, plus what the messages under way will still cause, are what the
      requests are worth. */
  lemma AckConservation(w: World, s: Option<int>)
    requires Reachable(w)
    ensures OfSession(w.delivered, s) + OfSession(w.app, s)
      + Owed(w.core, s, false) + Owed(w.core, s, true) + OfSession(w.device, s) == Worth(w.sent, s)
  {
    ReachableInv(w);
    assert AcksConserved(w, s, false) && AcksConserved(w, s, true);
    RequestsOwe(w.sent, s);
    AcksOwe(w.delivered, s);
    AcksOwe(w.app, s);
    CommandsOwe(w.device, s);
  }

  lemma {:induction false} CommandsOwe(ms: seq<Msg>, s: Option<int>)
    requires forall m :: m in ms ==> IsCommand(m)
    ensures Owed(ms, s, false) == 0 && Owed(ms, s, true) == OfSession(ms, s)
  {
    if ms != [] {
      assert ms[0] in ms;
      CommandsOwe(ms[1..], s);
    }
  }

  /** The device has glowed, or will glow, once for each request that wants an acknowledgement. */
  lemma GlowConservation(w: World, s: Option<int>)
    requires Reachable(w)
    ensures OfSession(w.glowed, s) + OfSession(w.device, s) + ToGlow(w.core, s) == ToGlow(w.sent, s)
  {
    ReachableInv(w);
    assert GlowsConserved(w, s);
  }

  /** A request without acknowledgement never reaches the device, but it is acknowledged all the same:
      that is what the code does. */
  lemma NoAckLaw(w: World, s: int)
    requires Reachable(w)
    requires forall m :: m in w.sent && m.session == s ==> m.event == EV_SEND_TO_CORE_NO_ACK
    ensures OfSession(w.glowed, Some(s)) == 0
    ensures w.core == [] && w.device == [] ==>
      OfSession(w.delivered, Some(s)) + OfSession(w.app, Some(s)) == OfSession(w.sent, Some(s))
  {
    GlowConservation(w, Some(s));
    AckConservation(w, Some(s));
    OnlyNoAck(w.sent, s);
  }

  lemma {:induction false} OnlyNoAck(ms: seq<Msg>, s: int)
    requires forall m :: m in ms && m.session == s ==> m.event == EV_SEND_TO_CORE_NO_ACK
    ensures ToGlow(ms, Some(s)) == 0 && Worth(ms, Some(s)) == OfSession(ms, Some(s))
  {
    if ms != [] {
      assert ms[0] in ms;
      OnlyNoAck(ms[1..], s);
    }
  }

  /** No reachable core leaves its loop, and none of its messages would make it. */
  lemma CoreNeverTerminates(w: World)
    requires Reachable(w)
    ensures w.state != ST_TERM && forall m :: m in w.core ==> m.state != ST_TERM
  {
    ReachableInv(w);
  }

  /** An application that waits has an answer in its queue, or the core or the device can take a turn. */
  lemma Progress(w: World)
    requires Reachable(w) && w.waiting > 0
    ensures Enabled(w, Receive) || Enabled(w, Core) || Enabled(w, Device)
  {
    ReachableInv(w);
    AckConservation(w, None);
    RequestsOwe(w.sent, None);
    AcksOwe(w.delivered, None);
  }

  function Turns(actions: seq<Action>): nat {
    if actions == [] then 0 else (if actions[0] in {Core, Device} then 1 else 0) + Turns(actions[1..])
  }

  predicate NoRequests(actions: seq<Action>) {
    forall a :: a in actions ==> !a.Ask?
  }

  /** Once requests stop, every turn of the core or the device uses up one unit of the potential, in whatever order. */
  lemma {:induction false} TurnsUsePotential(w: World, actions: seq<Action>)
    requires Inv(w) && NoRequests(actions) && Run(w, actions).Some?
    ensures Potential(Run(w, actions).value) + Turns(actions) == Potential(w)
    decreases |actions|
  {
    if actions != [] {
      StepInv(w, actions[0]);
      TurnLowersPotential(w, actions[0]);
      TurnsUsePotential(Next(w, actions[0]), actions[1..]);
    }
  }

  lemma PotentialZero(w: World)
    requires WellFormed(w)
    ensures Potential(w) == 0 <==> w.core == [] && w.device == []
    ensures Potential(w) > 0 ==> Enabled(w, Core) || Enabled(w, Device)
  {
  }

  /** From a reachable world without further requests: no run has more turns than the potential, and a
      run has drained both queues exactly when it has as many. As long as it has fewer, it can go on. */
  lemma Drain(w: World, actions: seq<Action>)
    requires Reachable(w) && NoRequests(actions) && Run(w, actions).Some?
    ensures Turns(actions) <= Potential(w)
    ensures var end := Run(w, actions).value;
      && (Turns(actions) == Potential(w) <==> end.core == [] && end.device == [])
      && (Turns(actions) < Potential(w) ==> Enabled(end, Core) || Enabled(end, Device))
  {
    ReachableInv(w);
    TurnsUsePotential(w, actions);
    RunInv(w, actions);
    PotentialZero(Run(w, actions).value);
  }

  /** When all requests ask the board, no application has been answered more often than the device has glowed. */
  lemma BoardAcksAreHonest(w: World)
    requires Reachable(w) && forall m :: m in w.sent ==> m.event == EV_SEND_TO_CORE_DEV_ACK
    ensures |w.delivered| <= |w.glowed|
  {
    AckConservation(w, None);
    GlowConservation(w, None);
    ReachableInv(w);
    AcksOwe(w.delivered, None);
    OnlyBoard(w.sent);
    CoreOwesGlows(w.core);
    All(w.glowed);
  }

  lemma {:induction false} OnlyBoard(ms: seq<Msg>)
    requires forall m :: m in ms ==> IsRequest(m) && m.event == EV_SEND_TO_CORE_DEV_ACK
    ensures ToGlow(ms, None) == Worth(ms, None)
  {
    if ms != [] { OnlyBoard(ms[1..]); }
  }

  lemma {:induction false} CoreOwesGlows(ms: seq<Msg>)
    requires forall m :: m in ms ==> IsRequest(m) || IsCommand(m)
    ensures ToGlow(ms, None) <= Owed(ms, None, true)
  {
    if ms != [] { CoreOwesGlows(ms[1..]); }
  }

  lemma {:induction false} All(ms: seq<Msg>)
    ensures OfSession(ms, None) == |ms|
  {
    if ms != [] { All(ms[1..]); }
  }

  /** Otherwise it can happen: the acknowledgement of a request that wanted none answers the request
      that asks the board, before the device has seen anything. */
  lemma StaleAck(session: int)
    ensures exists w ::
      && Reachable(w) && |w.delivered| == 1 && w.glowed == [] && w.waiting == 0
      && w.sent == [RequestMsg(GlowLed, session), RequestMsg(GlowLedWithBoardAck, session)]
  {
    var a1, a2 := Ask(GlowLed, session), Ask(GlowLedWithBoardAck, session);
    var w1 := Next(START, a1);
    var w2 := Next(w1, Core);
    var w3 := Next(w2, Core);
    var w4 := Next(w3, a2);
    var w5 := Next(w4, Receive);
    assert Run(w5, []) == Some(w5);
    assert [Receive][1..] == [] && Run(w4, [Receive]) == Some(w5);
    assert [a2, Receive][1..] == [Receive] && Run(w3, [a2, Receive]) == Some(w5);
    assert [Core, a2, Receive][1..] == [a2, Receive] && Run(w2, [Core, a2, Receive]) == Some(w5);
    assert [Core, Core, a2, Receive][1..] == [Core, a2, Receive] && Run(w1, [Core, Core, a2, Receive]) == Some(w5);
    assert [a1, Core, Core, a2, Receive][1..] == [Core, Core, a2, Receive];
    assert Run(START, [a1, Core, Core, a2, Receive]) == Some(w5);
  }

  // ----- exactly when an answer can come too early

  type Requests = seq<(Request, int)>

  function Messages(rs: Requests): seq<Msg> {
    if rs == [] then [] else [RequestMsg(rs[0].0, rs[0].1)] + Messages(rs[1..])
  }

  function AskAll(rs: Requests): seq<Action> {
    if rs == [] then [] else [Ask(rs[0].0, rs[0].1)] + AskAll(rs[1..])
  }

  /** Some request is not addressed to the board. */
  predicate SomeNotBoard(rs: Requests) {
    exists i :: 0 <= i < |rs| && rs[i].0 != GlowLedWithBoardAck
  }

  /** Some request waits for an answer. */
  predicate SomeWaits(rs: Requests) {
    exists i :: 0 <= i < |rs| && rs[i].0 != GlowLed
  }

  lemma {:induction false} RunInTurn(w: World, a: seq<Action>, b: seq<Action>)
    requires Run(w, a).Some?
    ensures Run(w, a + b) == Run(Run(w, a).value, b)
    decreases |a|
  {
    if a == [] {
      assert a + b == b;
    } else {
      assert (a + b)[1..] == a[1..] + b;
      RunInTurn(Next(w, a[0]), a[1..], b);
    }
  }

  lemma ReachesOn(w: World, actions: seq<Action>)
    requires Reachable(w) && Run(w, actions).Some?
    ensures Reachable(Run(w, actions).value)
  {
    var before :| Run(START, before) == Some(w);
    RunInTurn(START, before, actions);
  }

  /** Nothing has been delivered and the device has not glowed. */
  predicate Dark(w: World) {
    w.delivered == [] && w.glowed == []
  }

  lemma AskOne(w: World, r: Request, session: int)
    ensures var a := Ask(r, session);
      && Enabled(w, a) && Next(w, a).sent == w.sent + [RequestMsg(r, session)] && (Dark(w) ==> Dark(Next(w, a)))
  {
  }

  lemma {:induction false} AskingAll(w: World, rs: Requests)
    requires Dark(w)
    ensures var o := Run(w, AskAll(rs)); o.Some? && Dark(o.value) && o.value.sent == w.sent + Messages(rs)
    decreases |rs|
  {
    hide Next, Enabled, Dark, RequestMsg;
    if rs == [] {
      assert w.sent + Messages(rs) == w.sent;
    } else {
      var a := Ask(rs[0].0, rs[0].1);
      AskOne(w, rs[0].0, rs[0].1);
      AskingAll(Next(w, a), rs[1..]);
      assert AskAll(rs)[0] == a && AskAll(rs)[1..] == AskAll(rs[1..]);
      Assoc(w.sent, [RequestMsg(rs[0].0, rs[0].1)], Messages(rs[1..]));
    }
  }

  /** The core alone empties its queue. */
  lemma {:induction false} CoreAlone(w: World) returns (end: World)
    requires Reachable(w) && Dark(w)
    ensures Reachable(end) && Dark(end) && end.core == [] && end.sent == w.sent
    decreases Potential(w)
  {
    ReachableInv(w);
    if w.core == [] {
      end := w;
    } else {
      var next := Next(w, Core);
      TurnLowersPotential(w, Core);
      OneAction(w, Core);
      ReachesOn(w, [Core]);
      CoreCases(w);
      end := CoreAlone(next);
    }
  }

  function NotBoard(ms: seq<Msg>): nat {
    if ms == [] then 0 else (if ms[0].event == EV_SEND_TO_CORE_DEV_ACK then 0 else 1) + NotBoard(ms[1..])
  }

  lemma {:induction false} WorthIs(ms: seq<Msg>)
    requires forall m :: m in ms ==> IsRequest(m)
    ensures Worth(ms, None) == ToGlow(ms, None) + NotBoard(ms)
  {
    if ms != [] {
      assert ms[0] in ms;
      WorthIs(ms[1..]);
    }
  }

  lemma {:induction false} CountsOf(rs: Requests)
    ensures NotBoard(Messages(rs)) > 0 <==> SomeNotBoard(rs)
    ensures Blocking(Messages(rs)) > 0 <==> SomeWaits(rs)
  {
    if rs != [] {
      var rest := rs[1..];
      CountsOf(rest);
      assert Messages(rs)[1..] == Messages(rest);
      assert forall i :: 0 <= i < |rest| ==> rest[i] == rs[i + 1];
      if SomeNotBoard(rs) && rs[0].0 == GlowLedWithBoardAck {
        var i :| 0 <= i < |rs| && rs[i].0 != GlowLedWithBoardAck;
        assert rest[i - 1] == rs[i];
      }
      if SomeWaits(rs) && rs[0].0 == GlowLed {
        var i :| 0 <= i < |rs| && rs[i].0 != GlowLed;
        assert rest[i - 1] == rs[i];
      }
    }
  }

  lemma {:induction false} NoneNotBoard(ms: seq<Msg>)
    requires NotBoard(ms) == 0
    ensures forall m :: m in ms ==> m.event == EV_SEND_TO_CORE_DEV_ACK
  {
    if ms != [] {
      NoneNotBoard(ms[1..]);
      assert ms == [ms[0]] + ms[1..];
    }
  }

  /** More answers have been delivered than the device has glowed. */
  predicate TooEarly(w: World) {
    |w.delivered| > |w.glowed|
  }

  /** For a list of requests, whoever makes them: some interleaving delivers more answers than the device has
      glowed if and only if one of them is not addressed to the board and one of them waits for an answer. */
  lemma TooEarlyExactly(rs: Requests)
    ensures (exists w :: Reachable(w) && w.sent == Messages(rs) && TooEarly(w)) <==> SomeNotBoard(rs) && SomeWaits(rs)
  {
    CountsOf(rs);
    if w :| Reachable(w) && w.sent == Messages(rs) && TooEarly(w) {
      ReachableInv(w);
      if NotBoard(w.sent) == 0 {
        NoneNotBoard(w.sent);
        BoardAcksAreHonest(w);
      }
    }
    if SomeNotBoard(rs) && SomeWaits(rs) {
      var w := AnswerTooEarly(rs);
    }
  }

  lemma AnswerTooEarly(rs: Requests) returns (w: World)
    requires NotBoard(Messages(rs)) > 0 && Blocking(Messages(rs)) > 0
    ensures Reachable(w) && w.sent == Messages(rs) && TooEarly(w)
  {
    var full := AllAsked(rs);
    var idle := CoreAlone(full);
    AnswersWait(idle);
    w := Next(idle, Receive);
    assert Run(idle, [Receive]) == Some(w) by { OneAction(idle, Receive); }
    hide Run, Messages, NotBoard, Blocking;
    ReachesOn(idle, [Receive]);
  }

  lemma OneAction(w: World, a: Action)
    requires Enabled(w, a)
    ensures Run(w, [a]) == Some(Next(w, a))
  {
    hide Enabled, Next;
    assert [a][1..] == [];
  }

  lemma AllAsked(rs: Requests) returns (w: World)
    ensures Reachable(w) && Dark(w) && w.sent == Messages(rs)
  {
    assert Run(START, []) == Some(START);
    AskingAll(START, rs);
    hide Messages, AskAll;
    assert [] + Messages(rs) == Messages(rs);
    ReachesOn(START, AskAll(rs));
    w := Run(START, AskAll(rs)).value;
  }

  /** When the core is done and nothing else has happened, each request that is not for the board has an answer
      waiting. */
  lemma AnswersWait(w: World)
    requires Reachable(w) && Dark(w) && w.core == []
    ensures |w.app| == NotBoard(w.sent) && w.waiting == Blocking(w.sent)
  {
    ReachableInv(w);
    AckConservation(w, None);
    GlowConservation(w, None);
    AcksOwe(w.app, None);
    All(w.app);
    WorthIs(w.sent);
  }
}
