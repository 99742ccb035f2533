/** What happens to every frame over a run: it is under way, finished or erased, and ends when its last part ends. */
module FrameLifecycle {
  import opened MachineWords
  import opened FrameFilter

  /** The GPU work of a frame as the events tell it. */
  datatype Gpu = Idle | Busy | Done(ts: U64)

  /** What the events that reached a frame in its queue say about it, without the filter's flags; `lastEnd` is the time
    * of the last end of a vsync or of GPU work among them. */
  datatype Times = Times(isRs: bool, vsync: Option<U64>, gpu: Gpu, expectEnd: U64, lastEnd: U64)
  {
    /** The end of the vsync, or of the GPU work if that was later and the frame is the render service's. */
    function End(): U64
      requires vsync.Some?
    {
      if isRs && gpu.Done? && gpu.ts > vsync.value then gpu.ts else vsync.value
    }
  }

  type History = map<nat, Times>

  function Of(h: History, r: nat): Times {
    if r in h then h[r] else Times(false, None, Idle, 0, 0)
  }

  function Note(h: History, s: State, e: Event): (out: History) {
    var q := s.Queue(e.itid);
    if e.Begin? then h[|s.rows| := Times(false, None, Idle, e.expectEnd, 0)]
    else if q == [] then h
    else
      var first, last := q[0].row, q[|q| - 1].row;
      match e
      case MarkRs(_, _) => h[last := Of(h, last).(isRs := true)]
      case SetNumber(_, _, _) => h
      case EndVsync(ts, _) => h[last := Of(h, last).(vsync := Some(ts), lastEnd := ts)]
      case StartQueue(_, _) => h[first := Of(h, first).(gpu := Busy)]
      case EndQueue(ts, _) => h[first := Of(h, first).(gpu := Done(ts), lastEnd := ts)]
  }

  function Told(h: History, s: State, es: seq<Event>): (out: History)
    requires InRange(s)
    decreases |es|
  {
    if es == [] then h else Told(Note(h, s, es[0]), Step(s, es[0]), es[1..])
  }

  /** The time reached, in a run whose timestamps never decrease. */
  type Clock = Option<U64>

  ghost predicate Until(ts: U64, now: Clock) {
    now.Some? ==> ts <= now.value
  }

  ghost predicate Later(now: Clock, now': Clock) {
    now.Some? == now'.Some? && (now.Some? ==> now.value <= now'.value)
  }

  // ---------- the invariant ----------

  /** A frame under way is as its history says, and has not ended both ways. */
  ghost predicate FrameOk(rows: seq<Row>, h: History, now: Clock, itid: U32, f: Frame) {
    && f.expectedRow == f.row + 1 < |rows| && f.row in h
    && rows[f.row].itid == itid && rows[f.row].flag == PENDING && rows[f.row].actual && !rows[f.row + 1].actual
    && !(f.vsyncEnd && f.gpuEnd) && (f.vsyncEnd ==> f.isRs)
    && Matches(h[f.row], now, f)
  }

  ghost predicate Matches(t: Times, now: Clock, f: Frame) {
    && t.isRs == f.isRs && t.expectEnd == f.expectedEnd
    && (f.gpuEnd <==> !t.gpu.Busy?) && (f.vsyncEnd <==> t.vsync.Some?)
    && (t.gpu.Done? ==> Until(t.gpu.ts, now)) && (t.vsync.Some? ==> Until(t.vsync.value, now))
  }

  ghost predicate QueueOk(rows: seq<Row>, h: History, now: Clock, itid: U32, q: seq<Frame>) {
    && (forall k | 0 <= k < |q| :: FrameOk(rows, h, now, itid, q[k]))
    && (forall j, k | 0 <= j < k < |q| :: q[j].row < q[k].row)
  }

  /** A row that no frame under way points to any more. */
  ghost predicate Closed(rows: seq<Row>, h: History, now: Clock, r: nat)
    requires r < |rows|
  {
    && r in h
    && if rows[r].flag == ERASED then !h[r].isRs
       else
         && h[r].vsync.Some? && (h[r].isRs ==> !h[r].gpu.Busy?)
         && rows[r].flag in {IN_TIME, LATE}
         && rows[r].dur == Sub64(h[r].lastEnd, rows[r].ts)
         && (rows[r].flag == IN_TIME <==> h[r].expectEnd >= h[r].lastEnd)
         && (now.Some? ==> h[r].lastEnd == h[r].End())
  }

  ghost predicate Holds(q: seq<Frame>, r: nat) {
    exists k | 0 <= k < |q| :: q[k].row == r
  }

  ghost predicate RowOk(s: State, h: History, now: Clock, r: nat)
    requires r < |s.rows|
  {
    s.rows[r].actual ==> if s.rows[r].flag == PENDING then Holds(s.Queue(s.rows[r].itid), r)
        else Closed(s.rows, h, now, r)
  }

  ghost predicate Inv(s: State, h: History, now: Clock) {
    && (forall itid <- s.queues :: QueueOk(s.rows, h, now, itid, s.queues[itid]))
    && (forall r | 0 <= r < |s.rows| :: RowOk(s, h, now, r))
  }

  // ---------- one frame at a time ----------

  /** The rows and histories of all frames but one are untouched. */
  ghost predicate Beside(rows: seq<Row>, rows': seq<Row>, h: History, h': History, r: nat) {
    && |rows| <= |rows'|
    && (forall k | 0 <= k < |rows| :: rows'[k].actual == rows[k].actual)
    && (forall k | 0 <= k < |rows| && rows[k].actual && k != r :: rows'[k] == rows[k])
    && (forall k <- h | k != r :: k in h' && h'[k] == h[k])
  }

  lemma FrameBeside(rows: seq<Row>, rows': seq<Row>, h: History, h': History, r: nat, now: Clock, now': Clock,
                    itid: U32, f: Frame)
    requires Beside(rows, rows', h, h', r) && FrameOk(rows, h, now, itid, f) && f.row != r && Later(now, now')
    ensures FrameOk(rows', h', now', itid, f)
  {
  }

  lemma OtherQueue(rows: seq<Row>, rows': seq<Row>, h: History, h': History, r: nat, now: Clock, now': Clock,
                   itid: U32, q: seq<Frame>)
    requires Beside(rows, rows', h, h', r) && QueueOk(rows, h, now, itid, q) && Later(now, now')
    requires r < |rows| ==> rows[r].itid != itid
    ensures QueueOk(rows', h', now', itid, q)
  {
    forall k | 0 <= k < |q| ensures FrameOk(rows', h', now', itid, q[k]) {
      FrameBeside(rows, rows', h, h', r, now, now', itid, q[k]);
    }
  }

  /** The rest of a queue from which frame i was taken out. */
  lemma QueueWithout(rows: seq<Row>, rows': seq<Row>, h: History, h': History, now: Clock, now': Clock, itid: U32,
                     q: seq<Frame>, i: nat)
    requires i < |q| && Beside(rows, rows', h, h', q[i].row) && QueueOk(rows, h, now, itid, q) && Later(now, now')
    ensures QueueOk(rows', h', now', itid, q[..i] + q[i + 1..])
  {
    var rest := q[..i] + q[i + 1..];
    forall k | 0 <= k < |rest| ensures FrameOk(rows', h', now', itid, rest[k]) {
      FrameBeside(rows, rows', h, h', q[i].row, now, now', itid, rest[k]);
    }
  }

  /** A queue in which frame i changed. */
  lemma QueueWith(rows: seq<Row>, h: History, h': History, now: Clock, now': Clock, itid: U32, q: seq<Frame>, i: nat,
                  f: Frame)
    requires i < |q| && f.row == q[i].row && Beside(rows, rows, h, h', f.row) && QueueOk(rows, h, now, itid, q)
             && Later(now, now')
    requires FrameOk(rows, h', now', itid, f)
    ensures QueueOk(rows, h', now', itid, q[i := f])
  {
    var q' := q[i := f];
    forall k | 0 <= k < |q| ensures FrameOk(rows, h', now', itid, q'[k]) {
      if k != i { FrameBeside(rows, rows, h, h', f.row, now, now', itid, q[k]); }
    }
  }

  lemma ClosedBeside(rows: seq<Row>, rows': seq<Row>, h: History, h': History, r: nat, now: Clock, now': Clock, k: nat)
    requires Beside(rows, rows', h, h', r) && Later(now, now')
    requires k < |rows| && k != r && rows[k].actual && Closed(rows, h, now, k)
    ensures Closed(rows', h', now', k)
  {
  }

  lemma HoldsWith(q: seq<Frame>, i: nat, f: Frame, r: nat)
    requires i < |q| && f.row == q[i].row
    ensures Holds(q[i := f], r) == Holds(q, r)
  {
    if Holds(q, r) {
      var k :| 0 <= k < |q| && q[k].row == r;
      assert q[i := f][k].row == r;
    }
    if Holds(q[i := f], r) {
      var k :| 0 <= k < |q| && q[i := f][k].row == r;
      assert q[k].row == r;
    }
  }

  lemma HoldsWithout(q: seq<Frame>, i: nat, r: nat)
    requires i < |q| && Holds(q, r) && q[i].row != r
    ensures Holds(q[..i] + q[i + 1..], r)
  {
    var k :| 0 <= k < |q| && q[k].row == r;
    assert (q[..i] + q[i + 1..])[if k < i then k else k - 1] == q[k];
  }

  /** Changing a frame in its queue, together with its history. */
  lemma Changed(s: State, h: History, h': History, now: Clock, now': Clock, itid: U32, i: nat, f: Frame,
                gpu: seq<GpuRow>)
    requires Inv(s, h, now) && Later(now, now') && i < |s.Queue(itid)| && f.row == s.Queue(itid)[i].row
    requires Beside(s.rows, s.rows, h, h', f.row) && FrameOk(s.rows, h', now', itid, f)
    ensures Inv(s.WithQueue(itid, s.Queue(itid)[i := f]).(gpu := gpu), h', now')
  {
    hide FrameOk, Beside, Closed, Holds;
    var q, s' := s.Queue(itid), s.WithQueue(itid, s.Queue(itid)[i := f]).(gpu := gpu);
    assert FrameOk(s.rows, h, now, itid, q[i]);
    FrameRow(s.rows, h, now, itid, q[i]);
    QueueWith(s.rows, h, h', now, now', itid, q, i, f);
    forall other <- s'.queues ensures QueueOk(s.rows, h', now', other, s'.queues[other]) {
      if other != itid { OtherQueue(s.rows, s.rows, h, h', f.row, now, now', other, s.queues[other]); }
    }
    forall r | 0 <= r < |s.rows| ensures RowOk(s', h', now', r) {
      assert RowOk(s, h, now, r);
      HoldsWith(q, i, f, r);
      if s.rows[r].actual && s.rows[r].flag != PENDING { ClosedBeside(s.rows, s.rows, h, h', f.row, now, now', r); }
    }
  }

  lemma FrameRow(rows: seq<Row>, h: History, now: Clock, itid: U32, f: Frame)
    requires FrameOk(rows, h, now, itid, f)
    ensures f.row < |rows| && rows[f.row].itid == itid && rows[f.row].flag == PENDING && rows[f.row].actual
  {
  }

  /** Taking a frame out of its queue and closing its row. */
  lemma Removed(s: State, rows': seq<Row>, h: History, h': History, now: Clock, now': Clock, itid: U32, i: nat,
                gpu: seq<GpuRow>)
    requires Inv(s, h, now) && Later(now, now') && i < |s.Queue(itid)| && |rows'| == |s.rows|
    requires var r := s.Queue(itid)[i].row;
             r < |rows'| && Beside(s.rows, rows', h, h', r) && Closed(rows', h', now', r) && rows'[r].flag != PENDING
    ensures var q := s.Queue(itid);
            Inv(s.WithQueue(itid, q[..i] + q[i + 1..]).(rows := rows', gpu := gpu), h', now')
  {
    hide FrameOk, Closed, Holds;
    var q := s.Queue(itid);
    var s', gone := s.WithQueue(itid, q[..i] + q[i + 1..]).(rows := rows', gpu := gpu), q[i].row;
    assert FrameOk(s.rows, h, now, itid, q[i]);
    FrameRow(s.rows, h, now, itid, q[i]);
    QueueWithout(s.rows, rows', h, h', now, now', itid, q, i);
    forall other <- s'.queues ensures QueueOk(rows', h', now', other, s'.queues[other]) {
      if other != itid { OtherQueue(s.rows, rows', h, h', gone, now, now', other, s.queues[other]); }
    }
    forall r | 0 <= r < |rows'| ensures RowOk(s', h', now', r) {
      assert RowOk(s, h, now, r);
      if r != gone && s.rows[r].actual {
        if s.rows[r].flag != PENDING {
          ClosedBeside(s.rows, rows', h, h', gone, now, now', r);
        } else if s.rows[r].itid == itid {
          HoldsWithout(q, i, r);
        }
      }
    }
  }

  // ---------- the events ----------

  lemma BeginKeeps(s: State, h: History, now: Clock, e: Event)
    requires Inv(s, h, now) && InRange(s) && e.Begin?
    ensures Inv(BeginFrame(s, e), Note(h, s, e), now)
  {
    hide FrameOk, Closed, Holds;
    var s', h' := BeginFrame(s, e), Note(h, s, e);
    var n, q, q' := |s.rows|, s.Queue(e.itid), s'.queues[e.itid];
    assert Beside(s.rows, s'.rows, h, h', n);
    forall k | 0 <= k < |q| ensures FrameOk(s'.rows, h', now, e.itid, q'[k]) && q'[k].row < n {
      assert FrameOk(s.rows, h, now, e.itid, q[k]);
      FrameRow(s.rows, h, now, e.itid, q[k]);
      FrameBeside(s.rows, s'.rows, h, h', n, now, now, e.itid, q[k]);
    }
    NewFrame(s, h, now, e);
    forall other <- s'.queues ensures QueueOk(s'.rows, h', now, other, s'.queues[other]) {
      if other != e.itid { OtherQueue(s.rows, s'.rows, h, h', n, now, now, other, s.queues[other]); }
    }
    forall r | 0 <= r < |s'.rows| ensures RowOk(s', h', now, r) {
      if r < n {
        assert RowOk(s, h, now, r);
        HoldsMore(q, q'[|q|], r);
        if s.rows[r].actual && s.rows[r].flag != PENDING { ClosedBeside(s.rows, s'.rows, h, h', n, now, now, r); }
      } else {
        HoldsMore(q, q'[|q|], r);
      }
    }
  }

  lemma NewFrame(s: State, h: History, now: Clock, e: Event)
    requires InRange(s) && e.Begin?
    ensures var q := BeginFrame(s, e).queues[e.itid];
            FrameOk(BeginFrame(s, e).rows, Note(h, s, e), now, e.itid, q[|q| - 1])
  {
  }

  lemma HoldsMore(q: seq<Frame>, f: Frame, r: nat)
    ensures Holds(q + [f], r) == (Holds(q, r) || f.row == r)
  {
    if Holds(q, r) {
      var k :| 0 <= k < |q| && q[k].row == r;
      assert (q + [f])[k].row == r;
    }
    if f.row == r { assert (q + [f])[|q|].row == r; }
  }

  /** The history of one frame changes. */
  lemma NoteBeside(s: State, h: History, r: nat, t: Times)
    ensures Beside(s.rows, s.rows, h, h[r := t], r)
  {
  }

  lemma EndVsyncKeeps(s: State, h: History, now: Clock, now': Clock, e: Event)
    requires Inv(s, h, now) && InRange(s) && e.EndVsync? && s.Queue(e.itid) != [] && Later(now, now')
             && Reached(now', e)
    ensures Inv(EndLast(s, e.ts, e.itid), Note(h, s, e), now')
  {
    hide Inv, Closed, Holds;
    var q := s.Queue(e.itid);
    var i := |q| - 1;
    var last, h', s' := q[i], Note(h, s, e), EndLast(s, e.ts, e.itid);
    FrameIn(s, h, now, e.itid, i);
    if last.isRs && !last.gpuEnd {
      var f := last.(vsyncEnd := true);
      NoteBeside(s, h, last.row, h'[last.row]);
      Changed(s, h, h', now, now', e.itid, i, f, s.gpu);
      assert q[i := f] == q[..i] + [f];
    } else {
      assert q[..i] + q[i + 1..] == q[..i];
      assert Beside(s.rows, s'.rows, h, h', last.row);
      LastCloses(s, h, now, now', e);
      Removed(s, s'.rows, h, h', now, now', e.itid, i, s.gpu);
    }
  }

  lemma FrameIn(s: State, h: History, now: Clock, itid: U32, i: nat)
    requires Inv(s, h, now) && i < |s.Queue(itid)|
    ensures FrameOk(s.rows, h, now, itid, s.Queue(itid)[i])
  {
  }

  /** The clock shows the time of the event. */
  ghost predicate Reached(now: Clock, e: Event) {
    now.Some? ==> now.value == e.ts
  }

  lemma LastCloses(s: State, h: History, now: Clock, now': Clock, e: Event)
    requires InRange(s) && e.EndVsync? && s.Queue(e.itid) != [] && Later(now, now') && Reached(now', e)
    requires var last := s.Queue(e.itid)[|s.Queue(e.itid)| - 1];
             FrameOk(s.rows, h, now, e.itid, last) && (last.isRs ==> last.gpuEnd)
    ensures var last, rows := s.Queue(e.itid)[|s.Queue(e.itid)| - 1], EndLast(s, e.ts, e.itid).rows;
            Closed(rows, Note(h, s, e), now', last.row) && rows[last.row].flag != PENDING
  {
  }

  lemma EndQueueKeeps(s: State, h: History, now: Clock, now': Clock, e: Event)
    requires Inv(s, h, now) && InRange(s) && e.EndQueue? && s.Queue(e.itid) != [] && Later(now, now')
             && Reached(now', e)
    ensures Inv(EndFirst(s, e.ts, e.itid), Note(h, s, e), now')
  {
    hide Inv, Closed, Holds;
    var q := s.Queue(e.itid);
    var first, h', s' := q[0], Note(h, s, e), EndFirst(s, e.ts, e.itid);
    FrameIn(s, h, now, e.itid, 0);
    if first.vsyncEnd {
      assert q[..0] + q[1..] == q[1..];
      assert Beside(s.rows, s'.rows, h, h', first.row);
      FirstCloses(s, h, now, now', e);
      Removed(s, s'.rows, h, h', now, now', e.itid, 0, s'.gpu);
    } else {
      var f := first.(gpuEnd := true);
      NoteBeside(s, h, first.row, h'[first.row]);
      Changed(s, h, h', now, now', e.itid, 0, f, s'.gpu);
      assert q[0 := f] == [f] + q[1..];
    }
  }

  lemma FirstCloses(s: State, h: History, now: Clock, now': Clock, e: Event)
    requires InRange(s) && e.EndQueue? && s.Queue(e.itid) != [] && Later(now, now') && Reached(now', e)
    requires FrameOk(s.rows, h, now, e.itid, s.Queue(e.itid)[0]) && s.Queue(e.itid)[0].vsyncEnd
    ensures var first, rows := s.Queue(e.itid)[0], EndFirst(s, e.ts, e.itid).rows;
            Closed(rows, Note(h, s, e), now', first.row) && rows[first.row].flag != PENDING
  {
  }

  lemma NowLater(s: State, h: History, now: Clock, now': Clock)
    requires Inv(s, h, now) && Later(now, now')
    ensures Inv(s, h, now')
  {
    hide FrameOk, Closed, Holds;
    NoteBeside(s, h, |s.rows|, Of(h, |s.rows|));
    assert Beside(s.rows, s.rows, h, h, |s.rows|);
    forall itid <- s.queues ensures QueueOk(s.rows, h, now', itid, s.queues[itid]) {
      OtherQueue(s.rows, s.rows, h, h, |s.rows|, now, now', itid, s.queues[itid]);
    }
    forall r | 0 <= r < |s.rows| ensures RowOk(s, h, now', r) {
      assert RowOk(s, h, now, r);
      if s.rows[r].actual && s.rows[r].flag != PENDING { ClosedBeside(s.rows, s.rows, h, h, |s.rows|, now, now', r); }
    }
  }

  lemma StepKeeps(s: State, h: History, now: Clock, now': Clock, e: Event)
    requires Inv(s, h, now) && InRange(s) && Later(now, now') && Reached(now', e)
    ensures Inv(Step(s, e), Note(h, s, e), now')
  {
    hide Inv, Closed, Holds;
    NowLater(s, h, now, now');
    var q, h' := s.Queue(e.itid), Note(h, s, e);
    if e.Begin? {
      BeginKeeps(s, h, now', e);
    } else if q != [] {
      var i := |q| - 1;
      FrameIn(s, h, now', e.itid, 0);
      FrameIn(s, h, now', e.itid, i);
      match e
      case MarkRs(_, _) =>
        NoteBeside(s, h, q[i].row, h'[q[i].row]);
        Changed(s, h, h', now', now', e.itid, i, q[i].(isRs := true), s.gpu);
      case SetNumber(_, _, n) =>
        NoteBeside(s, h, q[0].row, h[q[0].row]);
        assert h[q[0].row := h[q[0].row]] == h;
        Changed(s, h, h, now', now', e.itid, 0, q[0].(frameNum := n), s.gpu);
      case EndVsync(_, _) => EndVsyncKeeps(s, h, now, now', e);
      case StartQueue(ts, _) =>
        NoteBeside(s, h, q[0].row, h'[q[0].row]);
        Changed(s, h, h', now', now', e.itid, 0, q[0].(gpuEnd := false, queueStart := ts), s.gpu);
      case EndQueue(_, _) => EndQueueKeeps(s, h, now, now', e);
    }
  }

  // ---------- runs ----------

  /** Timestamps never decrease, if the run is timed at all. */
  ghost predicate Timed(now: Clock, es: seq<Event>)
    decreases |es|
  {
    es == [] || now.None? || (now.value <= es[0].ts && Timed(Some(es[0].ts), es[1..]))
  }

  lemma {:induction false} RunKeeps(s: State, h: History, now: Clock, es: seq<Event>) returns (reached: Clock)
    requires Inv(s, h, now) && InRange(s) && Timed(now, es)
    ensures Inv(Run(s, es), Told(h, s, es), reached) && reached.Some? == now.Some?
    decreases |es|
  {
    hide Inv, Step, Note;
    reached := now;
    if es != [] {
      var now' := if now.None? then None else Some(es[0].ts);
      StepKeeps(s, h, now, now', es[0]);
      reached := RunKeeps(Step(s, es[0]), Note(h, s, es[0]), now', es[1..]);
    }
  }

  /** In every reachable state, whatever the timestamps, no frame under way has ended both ways. */
  lemma NeverBothEnded(es: seq<Event>, itid: U32, k: nat)
    ensures var q := Run(EMPTY, es).Queue(itid); k < |q| ==> !(q[k].vsyncEnd && q[k].gpuEnd)
  {
    var reached := RunKeeps(EMPTY, map[], None, es);
    var s := Run(EMPTY, es);
    if k < |s.Queue(itid)| { FrameIn(s, Told(map[], EMPTY, es), reached, itid, k); }
  }

  /** Whatever the timestamps, every finished frame has had its vsync ended and no GPU work left, lasts from its start
    * to the last end of a vsync or of GPU work that reached it in its queue, and is late exactly when that was after
    * the expected end. */
  lemma FinishedAtLastEnd(es: seq<Event>, r: nat)
    requires r < |Run(EMPTY, es).rows| && Run(EMPTY, es).rows[r].actual
             && Run(EMPTY, es).rows[r].flag in {IN_TIME, LATE}
    ensures var row, h := Run(EMPTY, es).rows[r], Told(map[], EMPTY, es);
            && r in h && h[r].vsync.Some? && (h[r].isRs ==> !h[r].gpu.Busy?)
            && row.dur == Sub64(h[r].lastEnd, row.ts)
            && (row.flag == LATE <==> h[r].expectEnd < h[r].lastEnd)
  {
    var reached := RunKeeps(EMPTY, map[], None, es);
    assert RowOk(Run(EMPTY, es), Told(map[], EMPTY, es), reached, r);
  }

  /** With nondecreasing timestamps every finished frame of the render service ended at the later of the end of its
    * vsync and the end of its GPU work, every other one at the end of its vsync; it is late exactly when that was
    * after the expected end. */
  lemma FinishedAtTheLater(es: seq<Event>, r: nat)
    requires Timed(Some(0), es)
    requires r < |Run(EMPTY, es).rows| && Run(EMPTY, es).rows[r].actual
             && Run(EMPTY, es).rows[r].flag in {IN_TIME, LATE}
    ensures var row, h := Run(EMPTY, es).rows[r], Told(map[], EMPTY, es);
            && r in h && h[r].vsync.Some?
            && row.dur == Sub64(h[r].End(), row.ts)
            && (row.flag == LATE <==> h[r].expectEnd < h[r].End())
  {
    FinishedAtLastEnd(es, r);
    var reached := RunKeeps(EMPTY, map[], Some(0), es);
    assert RowOk(Run(EMPTY, es), Told(map[], EMPTY, es), reached, r);
  }

  // ---------- conservation ----------

  function Begun(s: State): set<nat> {
    set r | 0 <= r < |s.rows| && s.rows[r].actual
  }

  function Finished(s: State): set<nat> {
    set r | 0 <= r < |s.rows| && s.rows[r].actual && s.rows[r].flag in {IN_TIME, LATE}
  }

  function Erased(s: State): set<nat> {
    set r | 0 <= r < |s.rows| && s.rows[r].actual && s.rows[r].flag == ERASED
  }

  /** The rows of the frames under way. */
  ghost function Queued(s: State): set<nat> {
    set r | 0 <= r < |s.rows| && Somewhere(s, r)
  }

  ghost predicate Somewhere(s: State, r: nat) {
    exists itid :: Holds(s.Queue(itid), r)
  }

  function Begins(es: seq<Event>): nat {
    if es == [] then 0 else (if es[0].Begin? then 1 else 0) + Begins(es[1..])
  }

  lemma StepBegun(s: State, e: Event)
    requires InRange(s)
    ensures |s.rows| <= |Step(s, e).rows|
    ensures Begun(Step(s, e)) == Begun(s) + if e.Begin? then {|s.rows|} else {}
  {
  }

  lemma {:induction false} RunBegun(s: State, es: seq<Event>)
    requires InRange(s)
    ensures |Begun(Run(s, es))| == |Begun(s)| + Begins(es)
    decreases |es|
  {
    if es != [] {
      StepBegun(s, es[0]);
      hide Step;
      RunBegun(Step(s, es[0]), es[1..]);
      if es[0].Begin? { assert |Begun(s) + {|s.rows|}| == |Begun(s)| + 1; }
    }
  }

  /** A frame under way is in one place: its row tells the thread, and rows ascend in a queue. */
  lemma OnePlace(s: State, h: History, now: Clock, itid: U32, k: nat, itid': U32, k': nat)
    requires Inv(s, h, now) && k < |s.Queue(itid)| && k' < |s.Queue(itid')|
    requires s.Queue(itid)[k].row == s.Queue(itid')[k'].row
    ensures itid == itid' && k == k'
  {
    hide Closed, Holds;
    FrameIn(s, h, now, itid, k);
    FrameIn(s, h, now, itid', k');
    if itid == itid' {
      assert QueueOk(s.rows, h, now, itid, s.queues[itid]);
    }
  }

  lemma QueuedIsPending(s: State, h: History, now: Clock, r: nat)
    requires Inv(s, h, now) && r < |s.rows|
    ensures r in Queued(s) <==> s.rows[r].actual && s.rows[r].flag == PENDING
  {
    assert RowOk(s, h, now, r);
    if itid :| Holds(s.Queue(itid), r) {
      var k :| 0 <= k < |s.Queue(itid)| && s.Queue(itid)[k].row == r;
      FrameIn(s, h, now, itid, k);
    }
  }

  lemma RowStatus(s: State, h: History, now: Clock, r: nat)
    requires Inv(s, h, now)
    ensures r in Begun(s) <==> r in Queued(s) || r in Finished(s) || r in Erased(s)
    ensures !(r in Queued(s) && r in Finished(s) + Erased(s)) && !(r in Finished(s) && r in Erased(s))
  {
    hide Somewhere, Holds;
    if r < |s.rows| {
      QueuedIsPending(s, h, now, r);
      assert RowOk(s, h, now, r);
    }
  }

  lemma Partition(s: State, h: History, now: Clock)
    requires Inv(s, h, now)
    ensures Begun(s) == Queued(s) + Finished(s) + Erased(s)
    ensures |Begun(s)| == |Queued(s)| + |Finished(s)| + |Erased(s)|
  {
    hide Inv, Begun, Queued, Finished, Erased;
    forall r: nat ensures r in Begun(s) <==> r in Queued(s) + Finished(s) + Erased(s) { RowStatus(s, h, now, r); }
    forall r | r in Queued(s) ensures r !in Finished(s) + Erased(s) { RowStatus(s, h, now, r); }
    forall r | r in Finished(s) ensures r !in Erased(s) { RowStatus(s, h, now, r); }
    assert Begun(s) == Queued(s) + (Finished(s) + Erased(s));
  }

  /** Frames begun are the frames under way, finished and erased, each once, whatever the timestamps. */
  lemma FramesConserved(es: seq<Event>)
    ensures var s := Run(EMPTY, es);
            && Begun(s) == Queued(s) + Finished(s) + Erased(s)
            && Begins(es) == |Queued(s)| + |Finished(s)| + |Erased(s)|
            && forall itid, k, itid', k' | 0 <= k < |s.Queue(itid)| && 0 <= k' < |s.Queue(itid')|
                 && (itid, k) != (itid', k') ::
                 s.Queue(itid)[k].row != s.Queue(itid')[k'].row
  {
    var reached := RunKeeps(EMPTY, map[], None, es);
    var s, h := Run(EMPTY, es), Told(map[], EMPTY, es);
    hide Inv, Run;
    Partition(s, h, reached);
    RunBegun(EMPTY, es);
    forall itid, k, itid', k' | 0 <= k < |s.Queue(itid)| && 0 <= k' < |s.Queue(itid')| && (itid, k) != (itid', k')
      ensures s.Queue(itid)[k].row != s.Queue(itid')[k'].row
    {
      if s.Queue(itid)[k].row == s.Queue(itid')[k'].row { OnePlace(s, h, reached, itid, k, itid', k'); }
    }
  }

  lemma ClosedStays(s: State, h: History, now: Clock, e: Event, r: nat)
    requires Inv(s, h, now) && InRange(s) && r < |s.rows| && s.rows[r].actual && s.rows[r].flag != PENDING
    ensures r < |Step(s, e).rows| && Step(s, e).rows[r] == s.rows[r]
  {
    hide Closed, Holds;
    var q := s.Queue(e.itid);
    if q != [] {
      FrameIn(s, h, now, e.itid, 0);
      FrameIn(s, h, now, e.itid, |q| - 1);
    }
  }

  lemma {:induction false} RunClosedStays(s: State, h: History, es: seq<Event>, r: nat)
    requires Inv(s, h, None) && InRange(s) && r < |s.rows| && s.rows[r].actual && s.rows[r].flag != PENDING
    ensures r < |Run(s, es).rows| && Run(s, es).rows[r] == s.rows[r]
    decreases |es|
  {
    hide Inv, Step, Note;
    if es != [] {
      ClosedStays(s, h, None, es[0], r);
      StepKeeps(s, h, None, None, es[0]);
      RunClosedStays(Step(s, es[0]), Note(h, s, es[0]), es[1..], r);
    }
  }

  /** A frame leaves its queue once: when it has, its row and its place outside the queues are final. */
  lemma LeavesOnce(es: seq<Event>, more: seq<Event>, r: nat)
    requires r in Begun(Run(EMPTY, es)) && r !in Queued(Run(EMPTY, es))
    ensures var s, later := Run(EMPTY, es), Run(Run(EMPTY, es), more);
            r < |later.rows| && later.rows[r] == s.rows[r] && r !in Queued(later)
  {
    var reached := RunKeeps(EMPTY, map[], None, es);
    var s, h := Run(EMPTY, es), Told(map[], EMPTY, es);
    hide Run, Inv, Queued;
    QueuedIsPending(s, h, None, r);
    RunClosedStays(s, h, more, r);
    var last := RunKeeps(s, h, None, more);
    QueuedIsPending(Run(s, more), Told(h, s, more), None, r);
  }
}
