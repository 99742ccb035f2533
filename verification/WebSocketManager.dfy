/** The session with the local service: connecting, logging in, keeping alive, reconnecting. */
module WebSocketManager {
  import opened MachineWords
  import opened Codec = WebSocketCodec

  const LOGIN_TYPE: nat := 0
  const HEARTBEAT_TYPE: nat := 1
  const LOGIN_CMD: nat := 2
  const LOGIN_PARAM := Param(0, Some(1), None, None, None, None)

  datatype Phase = Connecting | Opened | Closed

  datatype Sent = Sent(socket: nat, frame: seq<Byte>)
  datatype Delivery = Delivery(listener: nat, cmd: nat, data: seq<Byte>)

  /** The manager's fields, and what the browser keeps for it: sockets, interval timers, pending reconnects. */
  datatype State = State(sockets: seq<Phase>, ready: bool, sessionId: Option<nat>, session: Option<nat>,
                         heartbeat: Option<nat>, timers: set<nat>, made: nat, pending: nat,
                         listeners: map<int, nat>, sent: seq<Sent>, delivered: seq<Delivery>)
  {
    /** The socket that the manager holds is the one it made last. */
    predicate IsOpen() {
      sockets != [] && sockets[|sockets| - 1].Opened?
    }

    /** WebSocket.send: only an open socket transmits. */
    function Transmit(frame: Option<seq<Byte>>): State {
      if IsOpen() && frame.Some? then this.(sent := sent + [Sent(|sockets| - 1, frame.value)]) else this
    }

    function Connect(): State {
      this.(sockets := sockets + [Connecting])
    }

    /** sendHeartbeat; interval ids are positive and new. */
    function StartHeartbeat(): State {
      this.(heartbeat := Some(made + 1), timers := timers + {made + 1}, made := made + 1)
    }

    function ClearHeartbeat(): State {
      if heartbeat.Some? then this.(timers := timers - {heartbeat.value}, heartbeat := None) else this
    }

    function SendMessage(kind: int, cmd: Option<int>, data: Option<seq<Byte>>): State {
      if !ready then this
      else Transmit(Encode(Param(kind, cmd, sessionId, session, if data.Some? then Some(|data.value|) else None, data)))
    }

    /** onmessage after decoding. */
    function Receive(m: Message): State {
      if m.kind == HEARTBEAT_TYPE then this
      else if m.kind == LOGIN_TYPE then
        if m.cmd == LOGIN_CMD
        then this.(ready := true, sessionId := Some(m.sessionId), session := Some(m.session)) else this
      else if m.kind in listeners then this.(delivered := delivered + [Delivery(listeners[m.kind], m.cmd, m.data)])
      else this
    }
  }

  const START := State([Connecting], false, None, None, None, {}, 0, 0, map[], [], [])

  datatype Event =
    | Open(socket: nat)
    | Receive(socket: nat, frame: seq<Byte>)
    | Close(socket: nat, clean: bool)
    | Timeout
    | Beat(timer: nat)
    | Send(kind: int, cmd: Option<int>, data: Option<seq<Byte>>)
    | Register(kind: int, listener: nat)

  /** What the browser may deliver: a socket opens and closes once, receives while open; timers fire while set. */
  predicate Enabled(s: State, e: Event) {
    match e
    case Open(i) => i < |s.sockets| && s.sockets[i].Connecting?
    case Receive(i, _) => i < |s.sockets| && s.sockets[i].Opened?
    case Close(i, _) => i < |s.sockets| && !s.sockets[i].Closed?
    case Timeout => s.pending > 0
    case Beat(t) => t in s.timers
    case _ => true
  }

  function Step(s: State, e: Event): (out: State)
    requires Enabled(s, e)
  {
    match e
    case Open(i) => s.(sockets := s.sockets[i := Opened]).StartHeartbeat().Transmit(Encode(LOGIN_PARAM))
    case Receive(_, frame) => var m := Decode(frame); if m.None? then s else s.Receive(m.value)
    case Close(i, clean) =>
      var out := s.(sockets := s.sockets[i := Closed], ready := false, sessionId := None, session := None);
      var s1 := out.ClearHeartbeat();
      if clean then s1 else s1.(pending := s1.pending + 1)
    case Timeout => s.(pending := s.pending - 1).Connect()
    case Beat(_) => s.SendMessage(HEARTBEAT_TYPE, None, None)
    case Send(kind, cmd, data) => s.SendMessage(kind, cmd, data)
    case Register(kind, listener) => if kind in s.listeners then s else s.(listeners := s.listeners[kind := listener])
  }

  predicate Possible(s: State, es: seq<Event>)
    decreases |es|
  {
    es == [] || (Enabled(s, es[0]) && Possible(Step(s, es[0]), es[1..]))
  }

  function Run(s: State, es: seq<Event>): (out: State)
    requires Possible(s, es)
    decreases |es|
  {
    if es == [] then s else Run(Step(s, es[0]), es[1..])
  }

  // ---------- what the events say about the login ----------

  /** The session acknowledged last on the socket in use. */
  datatype Ack = Ack(sessionId: nat, session: nat)

  function Acked(a: Option<Ack>, e: Event): Option<Ack> {
    match e
    case Receive(_, frame) =>
      var m := Decode(frame);
      if m.Some? && m.value.kind == LOGIN_TYPE && m.value.cmd == LOGIN_CMD
      then Some(Ack(m.value.sessionId, m.value.session)) else a
    case Close(_, _) => None
    case _ => a
  }

  function LastAck(a: Option<Ack>, es: seq<Event>): Option<Ack>
    decreases |es|
  {
    if es == [] then a else LastAck(Acked(a, es[0]), es[1..])
  }

  // ---------- the invariant ----------

  ghost predicate Inv(s: State, a: Option<Ack>) {
    && s.sockets != []
    && (forall i | 0 <= i < |s.sockets| - 1 :: s.sockets[i].Closed?)
    && s.pending <= (if s.sockets[|s.sockets| - 1].Closed? then 1 else 0)
    && (if s.IsOpen() then s.heartbeat.Some? && s.timers == {s.heartbeat.value}
        else s.heartbeat.None? && s.timers == {})
    && (s.ready <==> a.Some?)
    && (s.ready ==> s.IsOpen() && s.sessionId == Some(a.value.sessionId) && s.session == Some(a.value.session))
    && (s.ready ==> a.value.sessionId < 256 && a.value.session < TWO64)
  }

  lemma StepKeeps(s: State, a: Option<Ack>, e: Event)
    requires Inv(s, a) && Enabled(s, e)
    ensures Inv(Step(s, e), Acked(a, e))
  {
    hide Encode, Decode;
    if e.Receive? && Decode(e.frame).Some? { DecodedFits(e.frame); }
  }

  lemma DecodedFits(frame: seq<Byte>)
    requires Decode(frame).Some?
    ensures Decode(frame).value.sessionId < 256 && Decode(frame).value.session < TWO64
  {
  }

  lemma {:induction false} RunKeeps(s: State, a: Option<Ack>, es: seq<Event>)
    requires Inv(s, a) && Possible(s, es)
    ensures Inv(Run(s, es), LastAck(a, es))
    decreases |es|
  {
    if es != [] {
      StepKeeps(s, a, es[0]);
      hide Inv, Step, Acked, Enabled;
      RunKeeps(Step(s, es[0]), Acked(a, es[0]), es[1..]);
    }
  }

  // ---------- the results ----------

  function Live(s: State): set<nat> {
    set i | 0 <= i < |s.sockets| && !s.sockets[i].Closed?
  }

  /** Over every run there is at most one live socket or pending reconnect, and at most one heartbeat timer. */
  lemma AtMostOne(es: seq<Event>)
    requires Possible(START, es)
    ensures var s := Run(START, es); |Live(s)| + s.pending <= 1 && |s.timers| <= 1
  {
    RunKeeps(START, None, es);
    var s := Run(START, es);
    hide Run;
    LiveIsLast(s, LastAck(None, es));
  }

  lemma LiveIsLast(s: State, a: Option<Ack>)
    requires Inv(s, a)
    ensures |Live(s)| + s.pending <= 1
  {
    var n := |s.sockets| - 1;
    assert Live(s) == if s.sockets[n].Closed? then {} else {n};
  }

  /** What the next event of any run sends. Opening a socket sends the login and nothing else does; every other frame
    * goes out only after an acknowledgement on the open socket in use, and decodes to what it was built from. */
  lemma WhatIsSent(es: seq<Event>, e: Event)
    requires Possible(START, es) && Enabled(Run(START, es), e)
    ensures var s, a := Run(START, es), LastAck(None, es);
            var now, n := Step(s, e).sent, |s.sent|;
            && s.sent <= now
            && match e
               case Open(i) => i == |s.sockets| - 1 && IsFrame(now[n..], i, Message(LOGIN_TYPE, 1, 0, 0, 0, []))
               case Beat(_) => if a.None? then now == s.sent else IsOwn(now[n..], s, a.value, HEARTBEAT_TYPE, 0, [])
               case Send(kind, cmd, data) =>
                 if a.None? then now == s.sent else IsOwn(now[n..], s, a.value, kind, Or(cmd, 0), Or(data, []))
               case _ => now == s.sent
  {
    RunKeeps(START, None, es);
    var s, a := Run(START, es), LastAck(None, es);
    hide Run, LastAck, Encode, Decode, Possible;
    match e
    case Open(i) => LoginSent(s, a, i);
    case Beat(_) => if a.Some? { OwnSent(s, a, HEARTBEAT_TYPE, None, None); }
    case Send(kind, cmd, data) => if a.Some? { OwnSent(s, a, kind, cmd, data); }
    case _ =>
  }

  /** One frame on this socket that decodes to this message. */
  ghost predicate IsFrame(sent: seq<Sent>, socket: nat, m: Message) {
    |sent| == 1 && sent[0].socket == socket && Decode(sent[0].frame) == Some(m)
  }

  /** One frame on the open socket in use, with the acknowledged session. */
  ghost predicate IsOwn(sent: seq<Sent>, s: State, a: Ack, kind: int, cmd: int, data: seq<Byte>) {
    s.IsOpen() && IsFrame(sent, |s.sockets| - 1,
                          Message(kind % 256, cmd % 0x1_0000, a.sessionId, a.session, |data| % TWO32, data))
  }

  lemma LoginSent(s: State, a: Option<Ack>, i: nat)
    requires Inv(s, a) && Enabled(s, Open(i))
    ensures i == |s.sockets| - 1
    ensures var now := Step(s, Open(i)).sent;
            s.sent <= now && IsFrame(now[|s.sent|..], i, Message(LOGIN_TYPE, 1, 0, 0, 0, []))
  {
    hide Encode, Decode;
    RoundTrip(LOGIN_PARAM);
    assert Or(LOGIN_PARAM.data, []) + Zeros(0) == [];
  }

  lemma OwnSent(s: State, a: Option<Ack>, kind: int, cmd: Option<int>, data: Option<seq<Byte>>)
    requires Inv(s, a) && a.Some?
    ensures var now := s.SendMessage(kind, cmd, data).sent;
            s.sent <= now && IsOwn(now[|s.sent|..], s, a.value, kind, Or(cmd, 0), Or(data, []))
  {
    hide Encode, Decode;
    RoundTrip(Param(kind, cmd, s.sessionId, s.session, if data.Some? then Some(|data.value|) else None, data));
    assert Or(data, []) + Zeros(0) == Or(data, []);
  }

  /** Nothing is live, set or pending. */
  ghost predicate Quiet(s: State) {
    !s.ready && s.pending == 0 && s.timers == {} && s.heartbeat.None?
        && forall i | 0 <= i < |s.sockets| :: s.sockets[i].Closed?
  }

  /** After a clean close everything is quiet, and stays so whatever the modules call. */
  lemma CleanCloseIsFinal(es: seq<Event>, i: nat, more: seq<Event>)
    requires Possible(START, es) && Enabled(Run(START, es), Close(i, true))
    requires Possible(Step(Run(START, es), Close(i, true)), more)
    ensures var s := Step(Run(START, es), Close(i, true));
            Quiet(s) && Quiet(Run(s, more)) && Run(s, more).sent == s.sent
  {
    RunKeeps(START, None, es);
    var s := Run(START, es);
    hide Run, Possible;
    assert Quiet(Step(s, Close(i, true)));
    StaysQuiet(Step(s, Close(i, true)), more);
  }

  lemma {:induction false} StaysQuiet(s: State, es: seq<Event>)
    requires Quiet(s) && Possible(s, es)
    ensures Quiet(Run(s, es)) && Run(s, es).sent == s.sent
    decreases |es|
  {
    if es != [] {
      StaysQuiet(Step(s, es[0]), es[1..]);
    }
  }
}
