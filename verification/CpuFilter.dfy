/**
 * Scheduler reconstruction: `sched_slice` and `thread_state` rows built from
 * sched_switch, sched_wakeup, sched_blocked_reason and binder events.
 */
module CpuFilter {
  import opened MachineWords

  /** Task-state codes; the tables hold them in 32-bit signed columns. */
  type TaskState = x: nat | x < 0x8000_0000

  const TASK_RUNNABLE: TaskState := 0
  const TASK_UNINTERRUPTIBLE: TaskState := 2
  const TASK_RUNNING: TaskState := 3
  const TASK_UNINTERRUPTIBLE_IO: TaskState := 21
  const TASK_UNINTERRUPTIBLE_NIO: TaskState := 22
  const TASK_DK: TaskState := 130
  const TASK_DK_IO: TaskState := 131
  const TASK_DK_NIO: TaskState := 132
  const TASK_NEW: TaskState := 2048
  const TASK_RUNNABLE_BINDER: TaskState := 2049
  const TASK_INVALID: TaskState := 0x8000

  datatype SchedRow = SchedRow(ts: U64, dur: U64, cpu: U32, itid: U32, endState: TaskState, prio: int)
  datatype StateRow = StateRow(ts: U64, dur: U64, cpu: U32, itid: U32, state: TaskState)

  /** The row and state last recorded for a thread. */
  datatype Remembered = Remembered(row: nat, state: TaskState)

  /** A pending binder transaction; rows are absent until the sender has been switched out. */
  datatype BinderInfo = BinderInfo(from: U32, to: U32, sched: Option<nat>, state: Option<nat>)

  datatype Config = Config(hmKernel: bool, binderRunnable: bool)

  datatype Event =
    | Switch(ts: U64, cpu: U32, prev: U32, prevState: TaskState, next: U32, nextPrio: int)
    | Wakeup(ts: U64, itid: U32, isWaking: bool)
    | Blocked(itid: U32, iowait: bool)
    | BinderSend(tx: U32, itid: U32)
    | BinderRecv(tx: U32, itid: U32)

  /** The sched_slice table and `cpuToRowSched_`. */
  datatype Slices = Slices(rows: seq<SchedRow>, onCpu: map<U32, nat>)
  {
    ghost predicate InRange() {
      forall c <- onCpu :: onCpu[c] < |rows|
    }

    /** The new sched_slice row of a switch, and the closing of the previous one on this cpu. */
    function Switch(ts: U64, cpu: U32, prevState: TaskState, next: U32, prio: int): (out: Slices)
      requires InRange()
      ensures out.InRange() && |out.rows| == |rows| + 1
    {
      var grown := rows + [SchedRow(ts, INVALID_U64, cpu, next, 0, prio)];
      Slices(if cpu in onCpu then CloseSched(grown, onCpu[cpu], ts, prevState) else grown, onCpu[cpu := |rows|])
    }
  }

  /** The thread_state table and the per-thread maps. */
  datatype Threads = Threads(
    rows: seq<StateRow>,
    onCpu: map<U32, nat>,
    last: map<U32, Remembered>,
    runnable: map<U32, U64>,
    blocked: map<U32, nat>)
  {
    ghost predicate InRange() {
      && (forall c <- onCpu :: onCpu[c] < |rows|)
      && (forall t <- last :: last[t].row < |rows|)
      && (forall t <- blocked :: blocked[t] < |rows|)
    }

    /** StateOfInternalTidInStateTable. */
    function StateOf(t: U32): TaskState {
      if t in last then last[t].state else TASK_INVALID
    }

    /** UpdateDuration on the thread's remembered row, if it has one. */
    function CloseLast(t: U32, ts: U64): (out: Threads)
      requires InRange()
      ensures out.InRange() && |out.rows| == |rows|
    {
      if t in last then this.(rows := CloseState(rows, last[t].row, ts)) else this
    }

    /** AppendThreadState followed by RemberInternalTidInStateTable. */
    function Append(row: StateRow): (out: Threads)
      requires InRange()
      ensures out.InRange() && |out.rows| == |rows| + 1
    {
      this.(rows := rows + [row], last := last[row.itid := Remembered(|rows|, row.state)])
    }

    /** Ends the thread's remembered row where the new row starts. */
    function Advance(row: StateRow): (out: Threads)
      requires InRange()
      ensures out.InRange() && |out.rows| == |rows| + 1
    {
      CloseLast(row.itid, row.ts).Append(row)
    }

    function CheckWakeup(t: U32): (out: Threads)
      requires InRange()
      ensures out.InRange() && |out.rows| >= |rows|
    {
      if t !in runnable then this
      else if StateOf(t) == TASK_RUNNING then this.(runnable := runnable - {t})
      else Advance(StateRow(runnable[t], INVALID_U64, INVALID_U32, t, TASK_RUNNABLE)).(runnable := runnable - {t})
    }

    /** The check that only one thread runs on a cpu finds a row there that was never closed. */
    predicate Evicts(cpu: U32, prev: U32)
      requires InRange()
    {
      cpu in onCpu && rows[onCpu[cpu]].itid != prev && rows[onCpu[cpu]].dur == INVALID_U64
    }

    function Evict(cpu: U32, prev: U32): (out: Threads)
      requires InRange()
      ensures out.InRange() && out.rows == rows
    {
      if Evicts(cpu, prev) then this.(last := last - {rows[onCpu[cpu]].itid}) else this
    }

    function ProcNext(ts: U64, cpu: U32, prev: U32, next: U32): (out: Threads)
      requires InRange()
      ensures out.InRange() && |out.rows| > |rows|
    {
      var running := CheckWakeup(next).Advance(StateRow(ts, INVALID_U64, cpu, next, TASK_RUNNING));
      running.Evict(cpu, prev).(onCpu := running.onCpu[cpu := |running.rows| - 1])
    }

    /** The thread is already running on another cpu, so this switch-out is stale. */
    predicate ChangedCpu(cfg: Config, ts: U64, cpu: U32, prev: U32)
      requires InRange()
    {
      prev in last &&
      var row := rows[last[prev].row];
      cpu != row.cpu && row.state == TASK_RUNNING && (cfg.hmKernel || ts == row.ts)
    }

    function RememberBlocked(t: U32, row: nat, state: TaskState): (out: Threads)
      requires InRange() && row < |rows|
      ensures out.InRange() && out.rows == rows
    {
      this.(blocked := if state == TASK_UNINTERRUPTIBLE || state == TASK_DK then blocked[t := row] else blocked - {t})
    }

    /** Closes the row the outgoing thread had before any pending wakeup was applied to it. */
    function CloseOutgoing(prev: U32, ts: U64): (out: Threads)
      requires InRange()
      ensures out.InRange()
    {
      if prev !in last then this
      else var woken := CheckWakeup(prev); woken.(rows := CloseState(woken.rows, last[prev].row, ts))
    }

    /** ProcPrevPidSwitchEvent, when the switch-out is not stale. */
    function ProcPrev(ts: U64, prev: U32, prevState: TaskState): (out: Threads)
      requires InRange()
      ensures out.InRange() && |out.rows| > 0
    {
      var closed := CloseOutgoing(prev, ts);
      closed.Append(StateRow(ts, INVALID_U64, INVALID_U32, prev, prevState))
      .RememberBlocked(prev, |closed.rows|, prevState)
    }

    /** There is an outgoing thread and its switch-out is not stale. */
    predicate Leaves(cfg: Config, e: Event)
      requires InRange() && e.Switch?
    {
      e.prev != 0 && !ChangedCpu(cfg, e.ts, e.cpu, e.prev)
    }

    function SwitchIn(e: Event): (out: Threads)
      requires InRange() && e.Switch?
      ensures out.InRange()
    {
      if e.next != 0 then ProcNext(e.ts, e.cpu, e.prev, e.next) else this
    }

    function SwitchOut(cfg: Config, e: Event): (out: Threads)
      requires InRange() && e.Switch?
      ensures out.InRange()
      ensures Leaves(cfg, e) ==> |out.rows| > 0
    {
      if Leaves(cfg, e) then ProcPrev(e.ts, e.prev, e.prevState) else this
    }

    /** InsertBlockedReasonEvent. */
    function BlockedReason(t: U32, iowait: bool): (out: Threads)
      requires InRange()
      ensures out.InRange() && |out.rows| == |rows|
    {
      if t !in blocked then this
      else
        var r := blocked[t];
        this.(rows := rows[r := rows[r].(state := BlockedLabel(rows[r].state, iowait))], blocked := blocked - {t})
    }

    /** InsertWakeupEvent. */
    function Wakeup(ts: U64, t: U32, isWaking: bool): (out: Threads)
      requires InRange()
      ensures out.InRange() && out.rows == rows
    {
      if !isWaking && t !in runnable then this.(runnable := runnable[t := ts]) else this
    }
  }

  /** `iTidToTransaction_` and `transactionIdToInfo_`. */
  datatype Binder = Binder(txOf: map<U32, U32>, info: map<U32, BinderInfo>)
  {
    ghost predicate InRange(schedSize: nat, stateSize: nat) {
      && (forall x <- info :: info[x].sched.Some? ==> info[x].sched.value < schedSize)
      && (forall x <- info :: info[x].state.Some? ==> info[x].state.value < stateSize)
    }

    /** TransactionClear. */
    function Clear(from: U32, tx: U32): Binder {
      if tx in info then Binder(txOf - {from} - {info[tx].from}, info - {tx}) else Binder(txOf - {from}, info)
    }

    /** InsertRunnableBinderEvent. */
    function Send(tx: U32, t: U32): Binder {
      Binder(txOf[t := tx], info[tx := BinderInfo(t, INVALID_U32, None, None)])
    }

    /** The switch-out of a thread with a pending transaction: its rows are noted, or the transaction dropped. */
    function Note(prevState: TaskState, noted: BinderInfo): Binder {
      if noted.from !in txOf then this
      else
        var tx := txOf[noted.from];
        if prevState != TASK_NEW || tx !in info || info[tx].from != noted.from || noted.sched.None? || noted.state.None?
        then Clear(prevState, tx)
        else Binder(txOf, info[tx := noted])
    }

    /** A receive by thread t relabels the rows noted for the transaction. */
    predicate Relabels(tx: U32, t: U32) {
      tx in info && info[tx].to == t && info[tx].sched.Some? && info[tx].state.Some?
    }
  }

  datatype State = State(slices: Slices, threads: Threads, binder: Binder)
  {
    ghost predicate InRange() {
      slices.InRange() && threads.InRange() && binder.InRange(|slices.rows|, |threads.rows|)
    }
  }

  const EMPTY := State(Slices([], map[]), Threads([], map[], map[], map[], map[]), Binder(map[], map[]))

  // ---------- table operations ----------

  /** ThreadStateData::UpdateDuration: closes an open row, leaves a closed one alone. */
  function CloseState(rows: seq<StateRow>, r: nat, ts: U64): (out: seq<StateRow>)
    requires r < |rows|
    ensures |out| == |rows|
    ensures forall i | 0 <= i < |rows| :: i != r ==> out[i] == rows[i]
  {
    if rows[r].dur == INVALID_U64 then rows[r := rows[r].(dur := Sub64(ts, rows[r].ts))] else rows
  }

  /** SchedSlice::Update: overwrites duration and end state. */
  function CloseSched(rows: seq<SchedRow>, r: nat, ts: U64, endState: TaskState): (out: seq<SchedRow>)
    requires r < |rows|
    ensures |out| == |rows|
    ensures forall i | 0 <= i < |rows| :: i != r ==> out[i] == rows[i]
  {
    rows[r := rows[r].(dur := Sub64(ts, rows[r].ts), endState := endState)]
  }

  function BlockedLabel(state: TaskState, iowait: bool): TaskState {
    if state == TASK_UNINTERRUPTIBLE then (if iowait then TASK_UNINTERRUPTIBLE_IO else TASK_UNINTERRUPTIBLE_NIO)
    else if state == TASK_DK then (if iowait then TASK_DK_IO else TASK_DK_NIO)
    else state
  }

  // ---------- event handlers ----------

  /** The tables after a switch, before its binder bookkeeping. */
  function SwitchTables(s: State, cfg: Config, e: Event): (out: State)
    requires s.InRange() && e.Switch?
    ensures out.slices.InRange() && out.threads.InRange()
    ensures |out.slices.rows| > |s.slices.rows| && |out.threads.rows| >= |s.threads.rows|
    ensures s.threads.SwitchIn(e).Leaves(cfg, e) ==> |out.threads.rows| > 0
  {
    var threads := s.threads.SwitchIn(e).SwitchOut(cfg, e);
    State(s.slices.Switch(e.ts, e.cpu, e.prevState, e.next, e.nextPrio), threads, s.binder)
  }

  /** The rows a switch closes (sched_slice) and appends for the outgoing thread (thread_state). */
  function SwitchInfo(s: State, cfg: Config, e: Event): (info: BinderInfo)
    requires s.InRange() && e.Switch?
  {
    BinderInfo(e.prev, e.next,
               if e.cpu in s.slices.onCpu then Some(s.slices.onCpu[e.cpu]) else None,
               if s.threads.SwitchIn(e).Leaves(cfg, e)
               then Some(|SwitchTables(s, cfg, e).threads.rows| - 1) else None)
  }

  /** InsertSwitchEvent. */
  function SwitchStep(s: State, cfg: Config, e: Event): (out: State)
    requires s.InRange() && e.Switch?
    ensures out.InRange()
  {
    var tables := SwitchTables(s, cfg, e);
    if cfg.binderRunnable then tables.(binder := s.binder.Note(e.prevState, SwitchInfo(s, cfg, e))) else tables
  }

  /** InsertRunnableBinderRecvEvent. */
  function RecvStep(s: State, tx: U32, t: U32): (out: State)
    requires s.InRange()
    ensures out.InRange()
  {
    if tx !in s.binder.info then s
    else
      var relabelled :=
        if s.binder.Relabels(tx, t) then
          var i, j := s.binder.info[tx].sched.value, s.binder.info[tx].state.value;
          s.(slices := s.slices.(rows := s.slices.rows[i := s.slices.rows[i].(endState := TASK_RUNNABLE_BINDER)]),
             threads := s.threads.(rows := s.threads.rows[j := s.threads.rows[j].(state := TASK_RUNNABLE_BINDER)]))
        else s;
      relabelled.(binder := s.binder.Clear(INVALID_U32, tx))
  }

  function Step(s: State, cfg: Config, e: Event): (out: State)
    requires s.InRange()
    ensures out.InRange()
  {
    match e
    case Switch(_, _, _, _, _, _) => SwitchStep(s, cfg, e)
    case Wakeup(ts, t, isWaking) => s.(threads := s.threads.Wakeup(ts, t, isWaking))
    case Blocked(t, iowait) => s.(threads := s.threads.BlockedReason(t, iowait))
    case BinderSend(tx, t) => s.(binder := s.binder.Send(tx, t))
    case BinderRecv(tx, t) => RecvStep(s, tx, t)
  }

  function Run(cfg: Config, events: seq<Event>): (out: State)
    ensures out.InRange()
  {
    if events == [] then EMPTY else Step(Run(cfg, events[..|events| - 1]), cfg, events[|events| - 1])
  }
}
