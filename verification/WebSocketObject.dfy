/** Encoding into a buffer with a moving index, and the manager as an object whose fields the callbacks update. */
module WebSocketObject {
  import opened MachineWords
  import opened Codec = WebSocketCodec
  import opened Model = WebSocketManager

  /** The bytes of a buffer after writing some of them from index i on. */
  ghost function Written(b: seq<Byte>, i: nat, x: seq<Byte>): seq<Byte>
    requires i + |x| <= |b|
  {
    b[..i] + x + b[i + |x|..]
  }

  method SetUint8(a: array<Byte>, i: nat, x: int)
    requires i < a.Length
    modifies a
    ensures a[..] == Written(old(a[..]), i, [x % 256])
  {
    a[i] := x % 256;
  }

  method SetUint16(a: array<Byte>, i: nat, x: int)
    requires i + 2 <= a.Length
    modifies a
    ensures a[..] == Written(old(a[..]), i, Put16(x))
  {
    a[i] := x / 256 % 256;
    a[i + 1] := x % 256;
  }

  method SetUint32(a: array<Byte>, i: nat, x: int)
    requires i + 4 <= a.Length
    modifies a
    ensures a[..] == Written(old(a[..]), i, Put32(x))
  {
    a[i] := x / 0x100_0000 % 256;
    a[i + 1] := x / 0x1_0000 % 256;
    a[i + 2] := x / 256 % 256;
    a[i + 3] := x % 256;
  }

  /** TypedArray.set. */
  method CopyInto(a: array<Byte>, x: seq<Byte>, at: nat)
    requires at + |x| <= a.Length
    modifies a
    ensures a[..] == Written(old(a[..]), at, x)
  {
    hide Written;
    ghost var b := a[..];
    var k := 0;
    WrittenNone(b, at);
    assert x[..0] == [];
    while k < |x|
      invariant k <= |x| && a[..] == Written(b, at, x[..k])
    {
      WrittenMore(b, at, x, k);
      a[at + k] := x[k];
      k := k + 1;
    }
    assert x[..k] == x;
  }

  lemma WrittenNone(b: seq<Byte>, at: nat)
    requires at <= |b|
    ensures Written(b, at, []) == b
  {
  }

  lemma WrittenMore(b: seq<Byte>, at: nat, x: seq<Byte>, k: nat)
    requires at + |x| <= |b| && k < |x|
    ensures |Written(b, at, x[..k])| == |b| && Written(b, at, x[..k])[at + k := x[k]] == Written(b, at, x[..k + 1])
  {
  }

  method WriteHead(m: Param) returns (head: array<Byte>)
    ensures fresh(head) && head[..] == Head(m)
  {
    hide Put16, Put32, Zeros, Written;
    var session := Or(m.session, 0);
    head := new Byte[MSG_HEAD_LENGTH](_ => 0);
    assert head[..] == [] + Zeros(20);
    var index := 0;
    ghost var done := WriteNext([], [m.kind % 256], 20);
    SetUint8(head, index, m.kind);
    index := index + 1;
    done := WriteNext(done, Put16(Or(m.cmd, 0)), 19);
    SetUint16(head, index, Or(m.cmd, 0));
    index := index + 2;
    done := WriteNext(done, [Or(m.sessionId, 0) % 256], 17);
    SetUint8(head, index, Or(m.sessionId, 0));
    index := index + 1;
    done := WriteNext(done, Put32(High32(session)), 16);
    SetUint32(head, index, High32(session));
    index := index + 4;
    done := WriteNext(done, Put32(Low32(session)), 12);
    SetUint32(head, index, Low32(session));
    index := index + 4;
    done := WriteNext(done, Put32(Or(m.dataLength, 0)), 8);
    SetUint32(head, index, Or(m.dataLength, 0));
    assert [] + [m.kind % 256] == [m.kind % 256];
  }

  /** Writing at the end of what has been written leaves fewer zeros behind it. */
  lemma WriteNext(done: seq<Byte>, x: seq<Byte>, left: nat) returns (now: seq<Byte>)
    requires |x| <= left
    ensures now == done + x && Written(done + Zeros(left), |done|, x) == now + Zeros(left - |x|)
  {
    now := done + x;
  }

  /** Utils.encode; None where setting the data past the announced length throws. */
  method EncodeFrame(m: Param) returns (frame: Option<seq<Byte>>)
    ensures frame == Encode(m)
  {
    hide Head, Written, Zeros;
    var n, data := Or(m.dataLength, 0), Or(m.data, []);
    var combined := new Byte[MSG_HEAD_LENGTH + n](_ => 0);
    assert combined[..] == [] + Zeros(MSG_HEAD_LENGTH + n);
    var head := WriteHead(m);
    ghost var done := WriteNext([], Head(m), MSG_HEAD_LENGTH + n);
    CopyInto(combined, head[..], 0);
    if |data| > n {
      return None;
    }
    assert [] + Head(m) == Head(m);
    done := WriteNext(done, data, n);
    CopyInto(combined, data, MSG_HEAD_LENGTH);
    frame := Some(combined[..]);
  }

  class Manager {
    // What the browser keeps for the manager.
    var sockets: seq<Phase>
    var timers: set<nat>
    var made: nat
    var pending: nat
    var sent: seq<Sent>
    var delivered: seq<Delivery>
    // The manager's own fields.
    var ready: bool
    var listeners: map<int, nat>
    var sessionId: Option<nat>
    var session: Option<nat>
    var heartbeat: Option<nat>

    ghost function View(): State reads this {
      State(sockets, ready, sessionId, session, heartbeat, timers, made, pending, listeners, sent, delivered)
    }

    constructor ()
      ensures View() == START
    {
      sockets, timers, made, pending := [Connecting], {}, 0, 0;
      sent, delivered := [], [];
      ready, listeners, sessionId, session, heartbeat := false, map[], None, None, None;
    }

    method ConnectWebSocket()
      modifies this`sockets
      ensures View() == old(View()).Connect()
    {
      sockets := sockets + [Connecting];
    }

    method Transmit(frame: Option<seq<Byte>>)
      modifies this`sent
      ensures View() == old(View()).Transmit(frame)
    {
      if frame.Some? && sockets != [] && sockets[|sockets| - 1].Opened? {
        sent := sent + [Sent(|sockets| - 1, frame.value)];
      }
    }

    method SendHeartbeat()
      modifies this`made, this`timers, this`heartbeat
      ensures View() == old(View()).StartHeartbeat()
    {
      made := made + 1;
      timers := timers + {made};
      heartbeat := Some(made);
    }

    method ClearHeartbeat()
      modifies this`timers, this`heartbeat
      ensures View() == old(View()).ClearHeartbeat()
    {
      if heartbeat.Some? {
        timers := timers - {heartbeat.value};
        heartbeat := None;
      }
    }

    method InitLoginInfo()
      modifies this`ready, this`sessionId, this`session
      ensures View() == old(View()).(ready := false, sessionId := None, session := None)
    {
      ready, sessionId, session := false, None, None;
    }

    method Login()
      modifies this`sent
      ensures View() == old(View()).Transmit(Encode(LOGIN_PARAM))
    {
      var frame := EncodeFrame(LOGIN_PARAM);
      Transmit(frame);
    }

    method SendMessage(kind: int, cmd: Option<int>, data: Option<seq<Byte>>)
      modifies this`sent
      ensures View() == old(View()).SendMessage(kind, cmd, data)
    {
      if !ready {
        return;
      }
      var length := if data.Some? then Some(|data.value|) else None;
      var frame := EncodeFrame(Param(kind, cmd, sessionId, session, length, data));
      Transmit(frame);
    }

    method RegisterMessageListener(kind: int, listener: nat)
      modifies this`listeners
      ensures View() == Step(old(View()), Register(kind, listener))
    {
      if kind !in listeners {
        listeners := listeners[kind := listener];
      }
    }

    method OnOpen(socket: nat)
      requires Enabled(View(), Open(socket))
      modifies this
      ensures View() == Step(old(View()), Open(socket))
    {
      sockets := sockets[socket := Opened];
      SendHeartbeat();
      Login();
    }

    method OnMessage(socket: nat, frame: seq<Byte>)
      requires Enabled(View(), Model.Receive(socket, frame))
      modifies this`ready, this`sessionId, this`session, this`delivered
      ensures View() == Step(old(View()), Model.Receive(socket, frame))
    {
      var decoded := Decode(frame);
      if decoded.None? || decoded.value.kind == HEARTBEAT_TYPE {
        return;
      }
      var m := decoded.value;
      if m.kind == LOGIN_TYPE {
        if m.cmd == LOGIN_CMD {
          ready, sessionId, session := true, Some(m.sessionId), Some(m.session);
        }
      } else if m.kind in listeners {
        delivered := delivered + [Delivery(listeners[m.kind], m.cmd, m.data)];
      }
    }

    method OnClose(socket: nat, wasClean: bool)
      requires Enabled(View(), Close(socket, wasClean))
      modifies this
      ensures View() == Step(old(View()), Close(socket, wasClean))
    {
      sockets := sockets[socket := Closed];
      InitLoginInfo();
      ClearHeartbeat();
      Reconnect(wasClean);
    }

    method Reconnect(wasClean: bool)
      modifies this`pending
      ensures pending == if wasClean then old(pending) else old(pending) + 1
    {
      if wasClean {
        return;
      }
      pending := pending + 1;
    }

    method OnTimeout()
      requires Enabled(View(), Timeout)
      modifies this`pending, this`sockets
      ensures View() == Step(old(View()), Timeout)
    {
      pending := pending - 1;
      ConnectWebSocket();
    }

    method OnBeat(timer: nat)
      requires Enabled(View(), Beat(timer))
      modifies this`sent
      ensures View() == Step(old(View()), Beat(timer))
    {
      SendMessage(HEARTBEAT_TYPE, None, None);
    }
  }
}
