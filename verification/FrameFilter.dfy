/** Frames of the app and of the render service, from vsync begin to their end. */
module FrameFilter {
  import opened MachineWords

  /** Row flags: not ended yet, in time, late, erased. */
  const PENDING: nat := 255
  const IN_TIME: nat := 0
  const LATE: nat := 1
  const ERASED: nat := 2

  /** A row of the frame table; every frame has an actual and an expected one. */
  datatype Row = Row(ts: U64, itid: U32, dur: U64, flag: nat, actual: bool)

  datatype GpuRow = GpuRow(frame: nat, dur: U64)

  /** A frame under way. */
  datatype Frame = Frame(row: nat, expectedRow: nat, expectedEnd: U64, gpuEnd: bool, vsyncEnd: bool, isRs: bool,
                         frameNum: U32, queueStart: U64)

  datatype State = State(queues: map<U32, seq<Frame>>, rows: seq<Row>, gpu: seq<GpuRow>)
  {
    function Queue(itid: U32): seq<Frame> {
      if itid in queues then queues[itid] else []
    }

    function WithQueue(itid: U32, q: seq<Frame>): State {
      this.(queues := queues[itid := q])
    }
  }

  /** The rows that the frames under way point to exist. */
  ghost predicate InRange(s: State) {
    forall itid <- s.queues :: FramesInRange(s.queues[itid], |s.rows|)
  }

  ghost predicate FramesInRange(q: seq<Frame>, n: nat) {
    forall k | 0 <= k < |q| :: q[k].row < n && q[k].expectedRow < n
  }

  const EMPTY := State(map[], [], [])

  datatype Event =
    | Begin(ts: U64, itid: U32, expectStart: U64, expectEnd: U64)
    | MarkRs(ts: U64, itid: U32)
    | SetNumber(ts: U64, itid: U32, frameNum: U32)
    | EndVsync(ts: U64, itid: U32)
    | StartQueue(ts: U64, itid: U32)
    | EndQueue(ts: U64, itid: U32)

  /** SetEndTimeAndFlag on a frame's actual row. */
  function Finish(rows: seq<Row>, f: Frame, ts: U64): (out: seq<Row>)
    requires f.row < |rows|
    ensures |out| == |rows|
  {
    rows[f.row := rows[f.row].(dur := Sub64(ts, rows[f.row].ts), flag := if f.expectedEnd >= ts then IN_TIME else LATE)]
  }

  function Erase(rows: seq<Row>, row: nat): (out: seq<Row>)
    requires row < |rows|
    ensures |out| == |rows|
  {
    rows[row := rows[row].(flag := ERASED)]
  }

  /** BeginVsyncEvent: both rows appended, the frame queued last. */
  function BeginFrame(s: State, e: Event): (out: State)
    requires e.Begin? && InRange(s)
    ensures InRange(out)
  {
    var n := |s.rows|;
    var frame := Frame(n, n + 1, e.expectEnd, true, false, false, INVALID_U32, INVALID_U64);
    State(s.queues[e.itid := s.Queue(e.itid) + [frame]],
          s.rows + [Row(e.ts, e.itid, INVALID_U64, PENDING, true),
                    Row(e.expectStart, e.itid, Sub64(e.expectEnd, e.expectStart), PENDING, false)],
          s.gpu)
  }

  /** EndVsyncEvent on the last frame of a queue. */
  function EndLast(s: State, ts: U64, itid: U32): (out: State)
    requires InRange(s) && s.Queue(itid) != []
    ensures InRange(out)
  {
    var q := s.Queue(itid);
    var last := q[|q| - 1];
    var rest := q[..|q| - 1];
    if last.isRs && !last.gpuEnd then s.WithQueue(itid, rest + [last.(vsyncEnd := true)])
    else if last.isRs || last.frameNum != INVALID_U32 then
      s.WithQueue(itid, rest).(rows := Finish(s.rows, last, ts))
    else
      s.WithQueue(itid, rest).(rows := Erase(Erase(Finish(s.rows, last, ts), last.row), last.expectedRow))
  }

  /** EndFrameQueue on the first frame of a queue. */
  function EndFirst(s: State, ts: U64, itid: U32): (out: State)
    requires InRange(s) && s.Queue(itid) != []
    ensures InRange(out)
  {
    var q := s.Queue(itid);
    var first := q[0];
    var s1 := s.(gpu := s.gpu + [GpuRow(first.row, Sub64(ts, first.queueStart))]);
    if first.vsyncEnd then s1.WithQueue(itid, q[1..]).(rows := Finish(s.rows, first, ts))
    else s1.WithQueue(itid, [first.(gpuEnd := true)] + q[1..])
  }

  function Step(s: State, e: Event): (out: State)
    requires InRange(s)
    ensures InRange(out)
  {
    var q := s.Queue(e.itid);
    if e.Begin? then BeginFrame(s, e)
    else if q == [] then s
    else
      match e
      case MarkRs(_, itid) => s.WithQueue(itid, q[|q| - 1 := q[|q| - 1].(isRs := true)])
      case SetNumber(_, itid, n) => s.WithQueue(itid, q[0 := q[0].(frameNum := n)])
      case EndVsync(ts, itid) => EndLast(s, ts, itid)
      case StartQueue(ts, itid) => s.WithQueue(itid, q[0 := q[0].(gpuEnd := false, queueStart := ts)])
      case EndQueue(ts, itid) => EndFirst(s, ts, itid)
  }

  function Run(s: State, es: seq<Event>): (out: State)
    requires InRange(s)
    ensures InRange(out)
    decreases |es|
  {
    if es == [] then s else Run(Step(s, es[0]), es[1..])
  }
}
