/** The LED protocol seen from the requests: what each of them writes, and what it comes to in the end. */
module LedRuns {
  import opened JsonValue
  import opened Sequences
  import opened LedProtocol

  /** The message of a request. */
  function Written(r: Request, session: int): Msg {
    match r
    case GlowLed => Msg(session, 0, 12301, 12351, NoAckText)
    case GlowLedWithFsmAck => Msg(session, 0, 12301, 12353, RequestText)
    case GlowLedWithBoardAck => Msg(session, 0, 12301, 12355, RequestText)
  }

  function WrittenBy(a: Action): seq<Msg> {
    match a
    case Ask(r, session) => [Written(r, session)]
    case _ => []
  }

  /** The messages that the requests among the actions write, in order. */
  function AllWritten(actions: seq<Action>): seq<Msg> {
    if actions == [] then [] else WrittenBy(actions[0]) + AllWritten(actions[1..])
  }

  /** Each request writes its message to the core's queue, and nothing else is sent. */
  lemma {:induction false} SentExactly(w: World, actions: seq<Action>)
    requires Run(w, actions).Some?
    ensures Run(w, actions).value.sent == w.sent + AllWritten(actions)
    decreases |actions|
  {
    hide Next, Enabled, WrittenBy;
    if actions == [] {
      assert w.sent + [] == w.sent;
    } else {
      SentExactly(Next(w, actions[0]), actions[1..]);
      SentNext(w, actions[0]);
      Assoc(w.sent, WrittenBy(actions[0]), AllWritten(actions[1..]));
    }
  }

  lemma SentNext(w: World, a: Action)
    requires Enabled(w, a)
    ensures Next(w, a).sent == w.sent + WrittenBy(a)
    ensures a.Ask? ==> Next(w, a).core == w.core + WrittenBy(a)
  {
  }

  /** How many acknowledgements the requests of a session bring. */
  function Acks(actions: seq<Action>, session: int): nat {
    if actions == [] then 0
    else
      (match actions[0]
       case Ask(r, s) => if s != session then 0 else if r == GlowLedWithFsmAck then 2 else 1
       case _ => 0) + Acks(actions[1..], session)
  }

  /** How many glowings. */
  function Glowings(actions: seq<Action>, session: int): nat {
    if actions == [] then 0
    else
      (match actions[0]
       case Ask(r, s) => if s == session && r != GlowLed then 1 else 0
       case _ => 0) + Glowings(actions[1..], session)
  }

  lemma {:induction false} WrittenWorth(actions: seq<Action>, session: int)
    ensures Worth(AllWritten(actions), Some(session)) == Acks(actions, session)
    ensures ToGlow(AllWritten(actions), Some(session)) == Glowings(actions, session)
  {
    if actions != [] {
      WrittenWorth(actions[1..], session);
      if actions[0].Ask? {
        var m := Written(actions[0].r, actions[0].session);
        assert AllWritten(actions)[0] == m && AllWritten(actions)[1..] == AllWritten(actions[1..]);
      } else {
        assert AllWritten(actions) == AllWritten(actions[1..]);
      }
    }
  }

  /** After any run from the start that has drained the queues of the core and the device, and for every session:
      its answers, read or not, are two for each of its requests that ask the core and one for each other, and the
      device has glowed once for each of its requests that wants an acknowledgement. */
  lemma SessionBalance(actions: seq<Action>, session: int)
    requires Run(START, actions).Some?
    ensures var w := Run(START, actions).value;
      w.core == [] && w.device == [] ==>
        && OfSession(w.delivered, Some(session)) + OfSession(w.app, Some(session)) == Acks(actions, session)
        && OfSession(w.glowed, Some(session)) == Glowings(actions, session)
  {
    var w := Run(START, actions).value;
    SentExactly(START, actions);
    assert [] + AllWritten(actions) == AllWritten(actions);
    WrittenWorth(actions, session);
    AckConservation(w, Some(session));
    GlowConservation(w, Some(session));
    hide Run, AllWritten, Acks, Glowings, Worth;
  }

  // ----- each request alone

  lemma Then(w: World, a: Action, w': World, rest: seq<Action>, end: World)
    requires Enabled(w, a) && Next(w, a) == w' && Run(w', rest) == Some(end)
    ensures Run(w, [a] + rest) == Some(end)
  {
    hide Next, Enabled;
    assert ([a] + rest)[1..] == rest;
  }

  /** The messages of each request on its own, from the request to the last acknowledgement. */
  lemma OneRequest(s: int)
    ensures var ack := Msg(s, 0, 12303, 12354, AckText);
      && (var o := Run(START, [Ask(GlowLed, s), Core, Core]);
        o.Some? && o.value.app == [ack] && o.value.glowed == [])
      && (var o := Run(START, [Ask(GlowLedWithFsmAck, s), Core, Receive, Device, Core]);
        && o.Some? && o.value.delivered == [Msg(s, 0, 12303, 12354, RequestText)] && o.value.app == [ack]
        && o.value.glowed == [Msg(s, 0, 12302, 12352, RequestText)])
      && (var o := Run(START, [Ask(GlowLedWithBoardAck, s), Core, Device, Core, Receive]);
        && o.Some? && o.value.delivered == [ack] && o.value.app == []
        && o.value.glowed == [Msg(s, 0, 12302, 12352, GlowText)])
  {
    NoAckRun(s);
    FsmAckRun(s);
    BoardAckRun(s);
  }

  lemma NoAckRun(s: int)
    ensures var o := Run(START, [Ask(GlowLed, s), Core, Core]);
      o.Some? && o.value.app == [Msg(s, 0, 12303, 12354, AckText)] && o.value.glowed == []
  {
    var w1 := Next(START, Ask(GlowLed, s));
    var w2 := Next(w1, Core);
    var w3 := Next(w2, Core);
    Then(w2, Core, w3, [], w3);
    Then(w1, Core, w2, [Core], w3);
    Then(START, Ask(GlowLed, s), w1, [Core, Core], w3);
    assert [Ask(GlowLed, s)] + [Core, Core] == [Ask(GlowLed, s), Core, Core] && [Core] + [Core] == [Core, Core];
    assert [Core] + [] == [Core];
    hide Run;
  }

  lemma FsmAckRun(s: int)
    ensures var o := Run(START, [Ask(GlowLedWithFsmAck, s), Core, Receive, Device, Core]);
      && o.Some? && o.value.delivered == [Msg(s, 0, 12303, 12354, RequestText)]
      && o.value.app == [Msg(s, 0, 12303, 12354, AckText)]
      && o.value.glowed == [Msg(s, 0, 12302, 12352, RequestText)]
  {
    var a := Ask(GlowLedWithFsmAck, s);
    var w1 := Next(START, a);
    var w2 := Next(w1, Core);
    var w3 := Next(w2, Receive);
    var w4 := Next(w3, Device);
    var w5 := Next(w4, Core);
    Then(w4, Core, w5, [], w5);
    assert [Core] + [] == [Core] && [Device] + [Core] == [Device, Core];
    Then(w3, Device, w4, [Core], w5);
    Then(w2, Receive, w3, [Device, Core], w5);
    assert [Receive] + [Device, Core] == [Receive, Device, Core];
    Then(w1, Core, w2, [Receive, Device, Core], w5);
    assert [Core] + [Receive, Device, Core] == [Core, Receive, Device, Core];
    Then(START, a, w1, [Core, Receive, Device, Core], w5);
    assert [a] + [Core, Receive, Device, Core] == [a, Core, Receive, Device, Core];
    hide Run;
  }

  lemma BoardAckRun(s: int)
    ensures var o := Run(START, [Ask(GlowLedWithBoardAck, s), Core, Device, Core, Receive]);
      && o.Some? && o.value.delivered == [Msg(s, 0, 12303, 12354, AckText)] && o.value.app == []
      && o.value.glowed == [Msg(s, 0, 12302, 12352, GlowText)]
  {
    var a := Ask(GlowLedWithBoardAck, s);
    var w1 := Next(START, a);
    var w2 := Next(w1, Core);
    var w3 := Next(w2, Device);
    var w4 := Next(w3, Core);
    var w5 := Next(w4, Receive);
    Then(w4, Receive, w5, [], w5);
    assert [Receive] + [] == [Receive] && [Core] + [Receive] == [Core, Receive];
    Then(w3, Core, w4, [Receive], w5);
    Then(w2, Device, w3, [Core, Receive], w5);
    assert [Device] + [Core, Receive] == [Device, Core, Receive];
    Then(w1, Core, w2, [Device, Core, Receive], w5);
    assert [Core] + [Device, Core, Receive] == [Core, Device, Core, Receive];
    Then(START, a, w1, [Core, Device, Core, Receive], w5);
    assert [a] + [Core, Device, Core, Receive] == [a, Core, Device, Core, Receive];
    hide Run;
  }
}
