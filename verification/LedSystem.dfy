/** The programs of the LED protocol as they run: global variables, queue reads and writes, the loop
    over the transition table. Each turn does to the world what `LedProtocol` says. */
module LedSystem {
  import opened JsonValue
  import opened LedProtocol

  const QUEUE_DEVICE := 10201
  const QUEUE_APPLICATION := 10202
  const QUEUE_CORE := 10204

  /** The array `trans`. */
  const TRANS: seq<(int, int, Handler)> := [
    (ST_INIT, EV_SEND_TO_CORE_NO_ACK, InitLed),
    (ST_INIT, EV_SEND_TO_CORE, InitLed),
    (ST_INIT, EV_SEND_TO_CORE_DEV_ACK, InitLed),
    (ST_SEND_TO_DEVICE, EV_SEND_TO_DEVICE_NO_ACK, SendAck),
    (ST_SEND_TO_DEVICE, EV_SEND_TO_DEVICE, SendAck)
  ]

  class System {
    // the queues
    var core: seq<Msg>
    var app: seq<Msg>
    var device: seq<Msg>

    // the globals of the core; `messageType` is never assigned
    var state: int
    var event: int
    var msg: Msg
    const messageType := 0

    // history
    ghost var waiting: nat
    ghost var sent: seq<Msg>
    ghost var delivered: seq<Msg>
    ghost var glowed: seq<Msg>

    ghost function Now(): World
      reads this
    {
      World(core, app, device, state, event, waiting, sent, delivered, glowed)
    }

    constructor ()
      ensures Now() == START
    {
      core, app, device := [], [], [];
      state, event := ST_INIT, 0;
      msg := Msg(0, 0, 0, 0, NoAckText);
      waiting, sent, delivered, glowed := 0, [], [], [];
    }

    /** `message_queue_write` on a queue with room. */
    method Write(key: int, m: Msg)
      requires key in {QUEUE_CORE, QUEUE_APPLICATION, QUEUE_DEVICE}
      modifies `core, `app, `device
      ensures core == old(core) + if key == QUEUE_CORE then [m] else []
      ensures app == old(app) + if key == QUEUE_APPLICATION then [m] else []
      ensures device == old(device) + if key == QUEUE_DEVICE then [m] else []
    {
      if key == QUEUE_CORE { core := core + [m]; }
      if key == QUEUE_APPLICATION { app := app + [m]; }
      if key == QUEUE_DEVICE { device := device + [m]; }
    }

    // ----- the core process

    method InitLed(m: Msg) returns (r: int)
      modifies `core, `app, `device
      ensures r == 0 && Now() == InitLedOn(old(Now()), m)
    {
      var m := m;
      if m.event == EV_SEND_TO_CORE_NO_ACK {
        m := m.(state := ST_SEND_TO_DEVICE, event := EV_SEND_TO_DEVICE_NO_ACK);
        Write(QUEUE_CORE, m);
      } else if m.event == EV_SEND_TO_CORE {
        m := m.(state := ST_SEND_ACK, event := EV_SEND_TO_APP);
        Write(QUEUE_APPLICATION, m);
        m := m.(state := ST_SEND_TO_DEVICE, event := EV_SEND_TO_DEVICE_NO_ACK);
        Write(QUEUE_DEVICE, m);
      } else if m.event == EV_SEND_TO_CORE_DEV_ACK {
        m := m.(state := ST_SEND_TO_DEVICE, event := EV_SEND_TO_DEVICE);
        m := m.(text := GlowText);
        Write(QUEUE_DEVICE, m);
      }
      return 0;
    }

    method SendAck(m: Msg) returns (r: int)
      modifies `core, `app, `device
      ensures r == 0 && Now() == SendAckOn(old(Now()), m)
    {
      if EV_SEND_TO_DEVICE != 0 {
        var m := m.(state := ST_SEND_ACK, event := EV_SEND_TO_APP);
        m := m.(text := AckText);
        Write(QUEUE_APPLICATION, m);
      }
      return 0;
    }

    method GetMessageStateEvent()
      requires core != []
      modifies `core, `msg, `state, `event
      ensures msg == old(core[0]) && core == old(core[1..])
      ensures if msg.kind == MSG_TYPE_GLOW_LED then state == msg.state && event == msg.event
        else state == old(state) && event == old(event)
    {
      msg, core := core[0], core[1..];
      if msg.kind == MSG_TYPE_GLOW_LED {
        state := msg.state;
        event := msg.event;
      }
    }

    /** One turn of the loop in `main` of the core, with a message in its queue. */
    method CoreTurn()
      requires core != []
      modifies this
      ensures Now() == CoreNext(old(Now()))
    {
      GetMessageStateEvent();
      ghost var seen := Now();
      if messageType == MSG_TYPE_GLOW_LED {
        for i := 0 to |TRANS|
          invariant Now() == seen
          invariant forall k :: 0 <= k < i ==> TRANS[k].0 != state || TRANS[k].1 != event
        {
          if state == TRANS[i].0 && event == TRANS[i].1 {
            assert HandlerFor(state, event) == Some(TRANS[i].2);
            if TRANS[i].2 == Handler.InitLed { state := InitLed(msg); } else { state := SendAck(msg); }
            return;
          }
        }
        NoEntry(state, event);
      }
    }

    /** The loop of the core's `main` up to the point where it blocks: it always comes to that point,
        never leaves the loop for good, and takes no more turns than the potential allows. */
    method CoreMain() returns (ghost turns: seq<Action>)
      requires Inv(Now())
      modifies this
      ensures core == [] && state != ST_TERM && Inv(Now())
      ensures Run(old(Now()), turns) == Some(Now()) && forall a :: a in turns ==> a == Core
      ensures Potential(Now()) + |turns| == Potential(old(Now()))
    {
      turns := [];
      while state != ST_TERM && core != []
        invariant Inv(Now())
        invariant Run(old(Now()), turns) == Some(Now()) && forall a :: a in turns ==> a == Core
        invariant Potential(Now()) + |turns| == Potential(old(Now()))
        decreases Potential(Now())
      {
        ghost var w := Now();
        StepInv(w, Core);
        TurnLowersPotential(w, Core);
        RunOneMore(old(Now()), turns, Core);
        CoreTurn();
        turns := turns + [Core];
      }
    }

    // ----- the device process

    /** One turn of the device wrapper's loop, with a message in its queue. */
    method DeviceTurn()
      requires device != []
      modifies this
      ensures Now() == DeviceNext(old(Now()))
    {
      var m := device[0];
      device := device[1..];
      glowed := glowed + [m];
      m := m.(kind := MSG_TYPE_GLOW_LED);
      m := m.(text := DeviceText);
      Write(QUEUE_CORE, m);
    }

    // ----- the application

    /** `glow_led`, and the first half of the other two requests: up to the read that blocks. */
    method Glow(r: Request, session: int)
      modifies this
      ensures Now() == Next(old(Now()), Ask(r, session))
    {
      var m := Msg(session, MSG_TYPE_GLOW_LED, ST_INIT, RequestEvent(r),
        if r == GlowLed then NoAckText else RequestText);
      Write(QUEUE_CORE, m);
      sent := sent + [m];
      if r != GlowLed { waiting := waiting + 1; }
    }

    /** The read that a request waits in, once there is a message. */
    method ReceiveAck() returns (m: Msg)
      requires waiting > 0 && app != []
      modifies this
      ensures Now() == Next(old(Now()), Receive) && m == old(app[0])
    {
      m := app[0];
      app := app[1..];
      delivered := delivered + [m];
      waiting := waiting - 1;
    }
  }

  lemma NoEntry(state: int, event: int)
    requires forall k :: 0 <= k < |TRANS| ==> TRANS[k].0 != state || TRANS[k].1 != event
    ensures HandlerFor(state, event) == None
  {
    assert TRANS[0] == (ST_INIT, EV_SEND_TO_CORE_NO_ACK, InitLed) && TRANS[1] == (ST_INIT, EV_SEND_TO_CORE, InitLed);
    assert TRANS[2] == (ST_INIT, EV_SEND_TO_CORE_DEV_ACK, InitLed);
    assert TRANS[4] == (ST_SEND_TO_DEVICE, EV_SEND_TO_DEVICE, SendAck);
  }

  lemma RunOneMore(w: World, actions: seq<Action>, a: Action)
    requires Run(w, actions).Some? && Enabled(Run(w, actions).value, a)
    ensures Run(w, actions + [a]) == Some(Next(Run(w, actions).value, a))
  {
    RunInTurn(w, actions, [a]);
    OneAction(Run(w, actions).value, a);
  }
}
