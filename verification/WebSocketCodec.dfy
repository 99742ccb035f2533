/** The binary frames exchanged with the local service: a head of twenty bytes, then the data. */
module WebSocketCodec {
  import opened MachineWords

  type Byte = x: nat | x < 256

  const MSG_HEAD_LENGTH: nat := 20

  /** What a module hands over; every field but the type may be missing. */
  datatype Param = Param(kind: int, cmd: Option<int>, sessionId: Option<int>, session: Option<int>,
                         dataLength: Option<nat>, data: Option<seq<Byte>>)

  /** What a frame decodes to. */
  datatype Message = Message(kind: nat, cmd: nat, sessionId: nat, session: nat, dataLength: nat, data: seq<Byte>)

  function Or<T>(o: Option<T>, default: T): T {
    if o.Some? then o.value else default
  }

  /** setUint16 and setUint32, big-endian and modulo the width. */
  function Put16(x: int): (b: seq<Byte>)
    ensures |b| == 2
  {
    [x / 256 % 256, x % 256]
  }

  function Put32(x: int): (b: seq<Byte>)
    ensures |b| == 4
  {
    [x / 0x100_0000 % 256, x / 0x1_0000 % 256, x / 256 % 256, x % 256]
  }

  function Get16(b: seq<Byte>, i: nat): nat
    requires i + 2 <= |b|
  {
    var high: nat, low: nat := b[i], b[i + 1];
    256 * high + low
  }

  function Get32(b: seq<Byte>, i: nat): nat
    requires i + 4 <= |b|
  {
    var b3: nat, b2: nat, b1: nat, b0: nat := b[i], b[i + 1], b[i + 2], b[i + 3];
    0x100_0000 * b3 + 0x1_0000 * b2 + 256 * b1 + b0
  }

  /** splitUint64ToUint32s: the two halves of a number modulo 2^64. */
  function High32(x: int): int { x / TWO32 % TWO32 }
  function Low32(x: int): int { x % TWO32 }

  function Zeros(n: nat): (b: seq<Byte>)
    ensures |b| == n && forall k | 0 <= k < n :: b[k] == 0
  {
    seq(n, _ => 0)
  }

  function Head(m: Param): (b: seq<Byte>)
    ensures |b| == MSG_HEAD_LENGTH
  {
    [m.kind % 256] + Put16(Or(m.cmd, 0)) + [Or(m.sessionId, 0) % 256]
    + Put32(High32(Or(m.session, 0))) + Put32(Low32(Or(m.session, 0))) + Put32(Or(m.dataLength, 0)) + Zeros(4)
  }

  /** None where writing the data past the announced length throws. */
  function Encode(m: Param): (b: Option<seq<Byte>>) {
    var data, n := Or(m.data, []), Or(m.dataLength, 0);
    if |data| > n then None else Some(Head(m) + data + Zeros(n - |data|))
  }

  /** None where reading past the end of a short frame throws. */
  function Decode(b: seq<Byte>): (m: Option<Message>) {
    if |b| < MSG_HEAD_LENGTH then None
    else Some(Message(b[0], Get16(b, 1), b[3], TWO32 * Get32(b, 4) + Get32(b, 8), Get32(b, 12), b[MSG_HEAD_LENGTH..]))
  }

  // ---------- the round trip ----------

  lemma Put16Get(x: int, b: seq<Byte>, i: nat)
    requires i + 2 <= |b| && b[i] == Put16(x)[0] && b[i + 1] == Put16(x)[1]
    ensures Get16(b, i) == x % 0x1_0000
  {
  }

  lemma MultipleBound(m: int, k: int)
    requires m > 0
    ensures (k >= 1 ==> m * k >= m) && (k <= -1 ==> m * k <= -m)
  {
  }

  lemma DivUnique(x: int, m: int, q: int, r: int)
    requires 0 <= r < m && x == m * q + r
    ensures x / m == q && x % m == r
  {
    var k := x / m - q;
    assert m * k == r - x % m by { assert x == m * (x / m) + x % m; assert m * k == m * (x / m) - m * q; }
    MultipleBound(m, k);
  }

  lemma Split32(x: int)
    ensures 0x100_0000 * (x / 0x100_0000 % 256) + 0x1_0000 * (x / 0x1_0000 % 256) + 256 * (x / 256 % 256) + x % 256
         == x % TWO32
  {
    var q1, r0 := x / 256, x % 256;
    var q2, r1 := q1 / 256, q1 % 256;
    var q3, r2 := q2 / 256, q2 % 256;
    var q4, r3 := q3 / 256, q3 % 256;
    DivUnique(x, 0x1_0000, q2, 256 * r1 + r0);
    DivUnique(x, 0x100_0000, q3, 0x1_0000 * r2 + 256 * r1 + r0);
    DivUnique(x, TWO32, q4, 0x100_0000 * r3 + 0x1_0000 * r2 + 256 * r1 + r0);
  }

  lemma Put32Get(x: int, b: seq<Byte>, i: nat)
    requires i + 4 <= |b| && b[i..i + 4] == Put32(x)
    ensures Get32(b, i) == x % TWO32
  {
    var p := b[i..i + 4];
    assert b[i] == p[0] && b[i + 1] == p[1] && b[i + 2] == p[2] && b[i + 3] == p[3];
    Split32(x);
  }

  lemma Halves(x: int)
    ensures TWO32 * (High32(x) % TWO32) + Low32(x) % TWO32 == x % TWO64
  {
    var q, low := x / TWO32, x % TWO32;
    var q', high := q / TWO32, q % TWO32;
    DivUnique(x, TWO64, q', TWO32 * high + low);
    DivUnique(high, TWO32, 0, high);
    DivUnique(low, TWO32, 0, low);
  }

  /** Decoding gives back every field at its width, and the data filled up to the announced length. */
  lemma RoundTrip(m: Param)
    requires |Or(m.data, [])| <= Or(m.dataLength, 0)
    ensures var n, data := Or(m.dataLength, 0), Or(m.data, []);
            Encode(m).Some? && Decode(Encode(m).value) ==
            Some(Message(m.kind % 256, Or(m.cmd, 0) % 0x1_0000, Or(m.sessionId, 0) % 256, Or(m.session, 0) % TWO64,
                         n % TWO32, data + Zeros(n - |data|)))
  {
    var n, data := Or(m.dataLength, 0), Or(m.data, []);
    var tail := data + Zeros(n - |data|);
    var b := Encode(m).value;
    assert b == Head(m) + tail;
    HeadDecodes(m, b);
    assert b[MSG_HEAD_LENGTH..] == tail;
  }

  lemma HeadDecodes(m: Param, b: seq<Byte>)
    requires |b| >= MSG_HEAD_LENGTH && b[..MSG_HEAD_LENGTH] == Head(m)
    ensures b[0] == m.kind % 256 && Get16(b, 1) == Or(m.cmd, 0) % 0x1_0000 && b[3] == Or(m.sessionId, 0) % 256
    ensures TWO32 * Get32(b, 4) + Get32(b, 8) == Or(m.session, 0) % TWO64 && Get32(b, 12) == Or(m.dataLength, 0) % TWO32
  {
    var h := Head(m);
    assert forall k | 0 <= k < MSG_HEAD_LENGTH :: b[k] == h[k];
    Put16Get(Or(m.cmd, 0), b, 1);
    assert b[4..8] == Put32(High32(Or(m.session, 0)));
    assert b[8..12] == Put32(Low32(Or(m.session, 0)));
    assert b[12..16] == Put32(Or(m.dataLength, 0));
    Put32Get(High32(Or(m.session, 0)), b, 4);
    Put32Get(Low32(Or(m.session, 0)), b, 8);
    Put32Get(Or(m.dataLength, 0), b, 12);
    Halves(Or(m.session, 0));
  }
}
