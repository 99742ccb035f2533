/**
 * What the scheduler tables mean: over every consistent schedule `thread_state` and
 * `sched_slice` agree with each other and with an abstract scheduler.
 */
module CpuSchedule {
  import opened MachineWords
  import opened CpuFilter

  // ---------- the abstract scheduler ----------

  /** What a cpu is doing: thread 0 is the idle task. */
  datatype OnCpu = OnCpu(itid: U32, since: U64)

  /** Where and since when a thread is running. */
  datatype Slot = Slot(cpu: U32, since: U64)

  /** `cur` is indexed by cpu, `run` by non-idle thread; `seen` holds the threads met in some switch. */
  datatype Sched = Sched(cur: map<U32, OnCpu>, run: map<U32, Slot>, seen: set<U32>)

  const START := Sched(map[], map[], {})

  /**
   * An event that continues a consistent schedule. A switch replaces the thread its cpu is running
   * (on the first switch of a cpu, a thread not met before) by one that runs nowhere; the state it
   * leaves in is a waiting state; and it does not close a slice exactly one tick before it began,
   * because that duration is the table's mark for an open row.
   */
  predicate Allowed(a: Sched, e: Event) {
    e.Switch? ==>
      && e.prev != e.next
      && (e.prev != 0 ==> e.prevState != TASK_RUNNING)
      && e.next !in a.run
      && (if e.cpu in a.cur
          then a.cur[e.cpu].itid == e.prev && (e.prev != 0 ==> Sub64(e.ts, a.cur[e.cpu].since) != INVALID_U64)
          else e.prev !in a.seen)
  }

  /** A switch that is possible at all: it replaces what its cpu runs by a thread that runs nowhere. */
  predicate Possible(a: Sched, e: Event) {
    e.Switch? ==>
      && e.prev != e.next
      && e.next !in a.run
      && (if e.cpu in a.cur then a.cur[e.cpu].itid == e.prev else e.prev !in a.seen)
  }

  function AbsStep(a: Sched, e: Event): Sched {
    if e.Switch? then
      Sched(a.cur[e.cpu := OnCpu(e.next, e.ts)],
            (if e.next != 0 then a.run[e.next := Slot(e.cpu, e.ts)] else a.run) - {e.prev},
            a.seen + ({e.prev, e.next} - {0}))
    else a
  }

  function Abs(events: seq<Event>): Sched {
    if events == [] then START else AbsStep(Abs(events[..|events| - 1]), events[|events| - 1])
  }

  ghost predicate Consistent(events: seq<Event>) {
    events != [] ==>
      Consistent(events[..|events| - 1]) && Allowed(Abs(events[..|events| - 1]), events[|events| - 1])
  }

  ghost predicate PossibleRun(events: seq<Event>) {
    events != [] ==>
      PossibleRun(events[..|events| - 1]) && Possible(Abs(events[..|events| - 1]), events[|events| - 1])
  }

  /** The two indexes of the abstract scheduler say the same, so no thread is current on two cpus. */
  ghost predicate Mirrors(a: Sched) {
    && (forall c <- a.cur :: a.cur[c].itid != 0 ==>
          a.cur[c].itid in a.run && a.run[a.cur[c].itid] == Slot(c, a.cur[c].since))
    && (forall t <- a.run :: t != 0 && t in a.seen &&
          a.run[t].cpu in a.cur && a.cur[a.run[t].cpu] == OnCpu(t, a.run[t].since))
  }

  lemma MirrorsStep(a: Sched, e: Event)
    requires Mirrors(a) && Possible(a, e) && 0 !in a.seen
    ensures Mirrors(AbsStep(a, e)) && 0 !in AbsStep(a, e).seen
  {
  }

  // ---------- selecting the rows that describe running ----------

  /** A stretch of execution, as either table reports it. */
  datatype Slice = Slice(ts: U64, dur: U64, cpu: U32, itid: U32)

  function RunningView(row: StateRow): Option<Slice> {
    if row.state == TASK_RUNNING then Some(Slice(row.ts, row.dur, row.cpu, row.itid)) else None
  }

  function BusyView(row: SchedRow): Option<Slice> {
    if row.itid != 0 then Some(Slice(row.ts, row.dur, row.cpu, row.itid)) else None
  }

  /** The slices that the rows of a table report, in row order. */
  function Project<T>(rows: seq<T>, view: T -> Option<Slice>): seq<Slice> {
    if rows == [] then []
    else
      var v := view(rows[|rows| - 1]);
      Project(rows[..|rows| - 1], view) + (if v.Some? then [v.value] else [])
  }

  /** The position in the projection of row i (of any row at or after i that is next to be selected). */
  function Rank<T>(rows: seq<T>, view: T -> Option<Slice>, i: nat): nat
    requires i <= |rows|
  {
    |Project(rows[..i], view)|
  }

  lemma ProjectAppend<T>(rows: seq<T>, view: T -> Option<Slice>, row: T)
    ensures Project(rows + [row], view) == Project(rows, view) + (if view(row).Some? then [view(row).value] else [])
    ensures forall i | 0 <= i <= |rows| :: Rank(rows + [row], view, i) == Rank(rows, view, i)
  {
    assert (rows + [row])[..|rows|] == rows;
    forall i | 0 <= i <= |rows| ensures (rows + [row])[..i] == rows[..i] {}
  }

  /** Changing a row's contents but not whether it is selected changes exactly its slice. */
  lemma {:induction false} ProjectUpdate<T>(rows: seq<T>, view: T -> Option<Slice>, r: nat, row: T)
    requires r < |rows| && view(rows[r]).Some? == view(row).Some?
    ensures var p := Project(rows, view);
            var k := Rank(rows, view, r);
            if view(row).Some? then k < |p| && p[k] == view(rows[r]).value
              && Project(rows[r := row], view) == p[k := view(row).value]
            else Project(rows[r := row], view) == p
  {
    var n := |rows| - 1;
    assert rows[r := row][..n] == if r < n then rows[..n][r := row] else rows[..n];
    if r < n {
      ProjectUpdate(rows[..n], view, r, row);
      assert rows[..n][..r] == rows[..r];
    } else {
      assert rows[..r] == rows[..n];
    }
  }

  lemma RankUpdate<T>(rows: seq<T>, view: T -> Option<Slice>, r: nat, row: T)
    requires r < |rows| && view(rows[r]).Some? == view(row).Some?
    ensures forall i | 0 <= i <= |rows| :: Rank(rows[r := row], view, i) == Rank(rows, view, i)
  {
    forall i | 0 <= i <= |rows| ensures Rank(rows[r := row], view, i) == Rank(rows, view, i) {
      if r < i {
        assert rows[r := row][..i] == rows[..i][r := row];
        ProjectUpdate(rows[..i], view, r, row);
      } else {
        assert rows[r := row][..i] == rows[..i];
      }
    }
  }

  // ---------- what no event handler changes ----------

  /** Rows are only appended, and of the old ones only durations may change. */
  ghost predicate OnlyDurations(rows: seq<StateRow>, out: seq<StateRow>) {
    |rows| <= |out| && forall i | 0 <= i < |rows| :: out[i] == rows[i].(dur := out[i].dur)
  }

  lemma CheckWakeupRows(th: Threads, t: U32)
    requires th.InRange()
    ensures OnlyDurations(th.rows, th.CheckWakeup(t).rows)
  {
  }

  lemma SwitchInRows(th: Threads, e: Event)
    requires th.InRange() && e.Switch?
    ensures OnlyDurations(th.rows, th.SwitchIn(e).rows)
  {
    if e.next != 0 {
      CheckWakeupRows(th, e.next);
      var woken := th.CheckWakeup(e.next);
      assert OnlyDurations(woken.rows, woken.Advance(StateRow(e.ts, INVALID_U64, e.cpu, e.next, TASK_RUNNING)).rows);
    }
  }

  /** The outgoing thread's row is the last one and starts at the switch. */
  lemma SwitchOutRows(th: Threads, cfg: Config, e: Event)
    requires th.InRange() && e.Switch?
    ensures OnlyDurations(th.rows, th.SwitchOut(cfg, e).rows)
    ensures var out := th.SwitchOut(cfg, e).rows;
            th.Leaves(cfg, e) ==>
              |out| > |th.rows| && out[|out| - 1] == StateRow(e.ts, INVALID_U64, INVALID_U32, e.prev, e.prevState)
  {
    hide Threads.CheckWakeup;
    CheckWakeupRows(th, e.prev);
  }

  /** The binder bookkeeping of a switch does not touch the tables. */
  lemma SwitchThreads(s: State, cfg: Config, e: Event)
    requires s.InRange() && e.Switch?
    ensures Step(s, cfg, e).threads == s.threads.SwitchIn(e).SwitchOut(cfg, e)
  {
  }

  // ---------- the thread_state table against the running threads ----------

  predicate OpenRunning(row: StateRow) {
    row.state == TASK_RUNNING && row.dur == INVALID_U64
  }

  /** Each running thread's remembered row is its open RUNNING row. */
  ghost predicate RunRemembered(th: Threads, run: map<U32, Slot>)
    requires th.InRange()
  {
    forall t <- run :: t in th.last && th.last[t].state == TASK_RUNNING
      && th.rows[th.last[t].row] == StateRow(run[t].since, INVALID_U64, run[t].cpu, t, TASK_RUNNING)
  }

  /** Remembered rows belong to their thread, and those of other threads are not RUNNING. */
  ghost predicate RestWaits(th: Threads, run: map<U32, Slot>)
    requires th.InRange()
  {
    forall t <- th.last :: th.rows[th.last[t].row].itid == t
      && (t !in run ==> th.last[t].state != TASK_RUNNING && th.rows[th.last[t].row].state != TASK_RUNNING)
  }

  /** Open RUNNING rows belong to running threads and are the remembered ones. */
  ghost predicate OpenRuns(th: Threads, run: map<U32, Slot>)
  {
    forall i | 0 <= i < |th.rows| && OpenRunning(th.rows[i]) ::
      th.rows[i].itid in run && th.rows[i].itid in th.last && th.last[th.rows[i].itid].row == i
  }

  /** The rows kept per cpu are RUNNING rows of that cpu; those kept for blocked threads are not. */
  ghost predicate Labels(th: Threads)
    requires th.InRange()
  {
    && (forall c <- th.onCpu :: th.rows[th.onCpu[c]].state == TASK_RUNNING && th.rows[th.onCpu[c]].cpu == c)
    && (forall t <- th.blocked :: th.rows[th.blocked[t]].state != TASK_RUNNING)
  }

  /** The thread_state table describes exactly these running threads. */
  ghost predicate ThreadsOk(th: Threads, run: map<U32, Slot>) {
    th.InRange() && RunRemembered(th, run) && RestWaits(th, run) && OpenRuns(th, run) && Labels(th)
  }

  /** The running threads after a row has been appended for one of them. */
  function RunAfter(run: map<U32, Slot>, row: StateRow): map<U32, Slot> {
    if row.state == TASK_RUNNING then run[row.itid := Slot(row.cpu, row.ts)] else run - {row.itid}
  }

  /** A thread that runs can only stop, and not exactly one tick before it started. */
  ghost predicate MayAdvance(run: map<U32, Slot>, row: StateRow) {
    && row.dur == INVALID_U64
    && (row.itid in run ==> row.state != TASK_RUNNING && Sub64(row.ts, run[row.itid].since) != INVALID_U64)
  }

  /** Advancing changes no old row but the thread's remembered one, and of that only the duration. */
  ghost predicate Advanced(th: Threads, out: Threads, row: StateRow) {
    && th.InRange() && out.InRange()
    && out == th.(rows := out.rows, last := th.last[row.itid := Remembered(|th.rows|, row.state)])
    && |out.rows| == |th.rows| + 1 && out.rows[|th.rows|] == row
    && (forall i | 0 <= i < |th.rows| ::
          out.rows[i] == if row.itid in th.last && i == th.last[row.itid].row && th.rows[i].dur == INVALID_U64
                         then th.rows[i].(dur := Sub64(row.ts, th.rows[i].ts)) else th.rows[i])
  }

  lemma AdvanceIsAdvanced(th: Threads, row: StateRow)
    requires th.InRange()
    ensures Advanced(th, th.Advance(row), row)
  {
  }

  lemma AdvancedRemembers(th: Threads, out: Threads, run: map<U32, Slot>, row: StateRow)
    requires ThreadsOk(th, run) && MayAdvance(run, row) && Advanced(th, out, row)
    ensures RunRemembered(out, RunAfter(run, row)) && RestWaits(out, RunAfter(run, row))
  {
    forall t <- th.last | t != row.itid
      ensures out.last[t] == th.last[t] && out.rows[th.last[t].row] == th.rows[th.last[t].row]
    {
    }
  }

  lemma AdvancedOpens(th: Threads, out: Threads, run: map<U32, Slot>, row: StateRow)
    requires ThreadsOk(th, run) && MayAdvance(run, row) && Advanced(th, out, row)
    ensures OpenRuns(out, RunAfter(run, row))
  {
    forall i | 0 <= i < |out.rows| && OpenRunning(out.rows[i])
      ensures out.rows[i].itid in RunAfter(run, row) && out.rows[i].itid in out.last
              && out.last[out.rows[i].itid].row == i
    {
      if i < |th.rows| {
        assert OpenRunning(th.rows[i]);
      }
    }
  }

  lemma AdvanceOk(th: Threads, run: map<U32, Slot>, row: StateRow)
    requires ThreadsOk(th, run) && MayAdvance(run, row)
    ensures ThreadsOk(th.Advance(row), RunAfter(run, row))
  {
    AdvanceIsAdvanced(th, row);
    var out := th.Advance(row);
    AdvancedRemembers(th, out, run, row);
    AdvancedOpens(th, out, run, row);
  }

  /** Ranks of old rows are unchanged. */
  ghost predicate RanksKept(rows: seq<StateRow>, out: seq<StateRow>) {
    |rows| <= |out| && forall i | 0 <= i <= |rows| :: Rank(out, RunningView, i) == Rank(rows, RunningView, i)
  }

  /** The running slices after a row has been appended for a thread: its open slice, if any, ends there. */
  ghost function SlicesAfter(th: Threads, run: map<U32, Slot>, row: StateRow): seq<Slice>
    requires ThreadsOk(th, run)
  {
    var p := Project(th.rows, RunningView);
    if row.state == TASK_RUNNING then p + [Slice(row.ts, row.dur, row.cpu, row.itid)]
    else if row.itid in run then
      EndSlice(p, Rank(th.rows, RunningView, th.last[row.itid].row), Sub64(row.ts, run[row.itid].since))
    else p
  }

  function EndSlice(p: seq<Slice>, k: nat, dur: U64): seq<Slice> {
    if k < |p| then p[k := p[k].(dur := dur)] else p
  }

  lemma CloseLastProject(th: Threads, run: map<U32, Slot>, row: StateRow)
    requires ThreadsOk(th, run) && MayAdvance(run, row)
    ensures var p := Project(th.rows, RunningView);
            var closed := th.CloseLast(row.itid, row.ts);
            RanksKept(th.rows, closed.rows)
            && Project(closed.rows, RunningView) ==
               if row.itid in run then
                 EndSlice(p, Rank(th.rows, RunningView, th.last[row.itid].row), Sub64(row.ts, run[row.itid].since))
               else p
  {
    if row.itid in th.last {
      var r, closed := th.last[row.itid].row, th.CloseLast(row.itid, row.ts);
      ProjectUpdate(th.rows, RunningView, r, closed.rows[r]);
      RankUpdate(th.rows, RunningView, r, closed.rows[r]);
      assert closed.rows == th.rows[r := closed.rows[r]];
    }
  }

  lemma AdvanceProject(th: Threads, run: map<U32, Slot>, row: StateRow)
    requires ThreadsOk(th, run) && MayAdvance(run, row)
    ensures RanksKept(th.rows, th.Advance(row).rows)
    ensures Project(th.Advance(row).rows, RunningView) == SlicesAfter(th, run, row)
  {
    CloseLastProject(th, run, row);
    ProjectAppend(th.CloseLast(row.itid, row.ts).rows, RunningView, row);
  }

  // ---------- the two halves of a switch ----------

  /** Only thread t may have been remembered anew. */
  ghost predicate OthersKept(th: Threads, out: Threads, t: U32) {
    && out.last.Keys <= th.last.Keys + {t}
    && forall x <- th.last | x != t :: x in out.last && out.last[x] == th.last[x]
  }

  /** ThreadsOk does not look at pending wakeups, and admits rows of the right kind in the other maps. */
  lemma SideMapsOk(th: Threads, run: map<U32, Slot>, runnable: map<U32, U64>)
    requires ThreadsOk(th, run)
    ensures ThreadsOk(th.(runnable := runnable), run)
  {
  }

  lemma OnCpuOk(th: Threads, run: map<U32, Slot>, cpu: U32, r: nat)
    requires ThreadsOk(th, run) && r < |th.rows| && th.rows[r].state == TASK_RUNNING && th.rows[r].cpu == cpu
    ensures ThreadsOk(th.(onCpu := th.onCpu[cpu := r]), run)
  {
  }

  lemma BlockedOk(th: Threads, run: map<U32, Slot>, t: U32, r: nat, state: TaskState)
    requires ThreadsOk(th, run) && r < |th.rows| && th.rows[r].state != TASK_RUNNING
    ensures ThreadsOk(th.RememberBlocked(t, r, state), run)
  {
  }

  lemma CheckWakeupOk(th: Threads, run: map<U32, Slot>, t: U32)
    requires ThreadsOk(th, run) && t !in run
    ensures ThreadsOk(th.CheckWakeup(t), run)
  {
    if t in th.runnable && th.StateOf(t) != TASK_RUNNING {
      var row := StateRow(th.runnable[t], INVALID_U64, INVALID_U32, t, TASK_RUNNABLE);
      AdvanceOk(th, run, row);
      assert RunAfter(run, row) == run;
      SideMapsOk(th.Advance(row), run, th.runnable - {t});
    } else {
      SideMapsOk(th, run, th.runnable - {t});
    }
  }

  lemma CheckWakeupProject(th: Threads, run: map<U32, Slot>, t: U32)
    requires ThreadsOk(th, run) && t !in run
    ensures var out := th.CheckWakeup(t);
            RanksKept(th.rows, out.rows) && Project(out.rows, RunningView) == Project(th.rows, RunningView)
  {
    if t in th.runnable {
      AdvanceProject(th, run, StateRow(th.runnable[t], INVALID_U64, INVALID_U32, t, TASK_RUNNABLE));
    }
  }

  /** On a consistent schedule no thread is evicted, so ClearInternalTidInStateTable is not reached. */
  lemma NoEviction(th: Threads, run: map<U32, Slot>, cpu: U32, prev: U32)
    requires ThreadsOk(th, run)
    requires forall t <- run :: run[t].cpu == cpu ==> t == prev || (cpu in th.onCpu ==> th.last[t].row != th.onCpu[cpu])
    ensures !th.Evicts(cpu, prev)
  {
    if th.Evicts(cpu, prev) {
      assert OpenRunning(th.rows[th.onCpu[cpu]]);
    }
  }

  /** The incoming thread's rows, before the eviction check. */
  function Incoming(th: Threads, ts: U64, cpu: U32, next: U32): Threads
    requires th.InRange()
  {
    th.CheckWakeup(next).Advance(StateRow(ts, INVALID_U64, cpu, next, TASK_RUNNING))
  }

  lemma IncomingOk(th: Threads, run: map<U32, Slot>, ts: U64, cpu: U32, next: U32)
    requires ThreadsOk(th, run) && next !in run
    ensures ThreadsOk(Incoming(th, ts, cpu, next), run[next := Slot(cpu, ts)])
  {
    CheckWakeupOk(th, run, next);
    AdvanceOk(th.CheckWakeup(next), run, StateRow(ts, INVALID_U64, cpu, next, TASK_RUNNING));
  }

  lemma IncomingProject(th: Threads, run: map<U32, Slot>, ts: U64, cpu: U32, next: U32)
    requires ThreadsOk(th, run) && next !in run
    ensures var out := Incoming(th, ts, cpu, next);
            RanksKept(th.rows, out.rows)
            && Project(out.rows, RunningView) == Project(th.rows, RunningView) + [Slice(ts, INVALID_U64, cpu, next)]
            && Rank(out.rows, RunningView, |out.rows| - 1) == |Project(th.rows, RunningView)|
  {
    var woken := th.CheckWakeup(next);
    CheckWakeupOk(th, run, next);
    CheckWakeupProject(th, run, next);
    AdvanceProject(woken, run, StateRow(ts, INVALID_U64, cpu, next, TASK_RUNNING));
    assert woken.rows[..|woken.rows|] == woken.rows;
  }

  lemma ProcNextIsIncoming(th: Threads, run: map<U32, Slot>, ts: U64, cpu: U32, prev: U32, next: U32)
    requires ThreadsOk(th, run) && next !in run
    requires forall t <- run :: run[t].cpu == cpu ==> t == prev
    ensures var out := Incoming(th, ts, cpu, next);
            !out.Evicts(cpu, prev) && th.ProcNext(ts, cpu, prev, next) == out.(onCpu := th.onCpu[cpu := |out.rows| - 1])
  {
    hide RestWaits, Labels, OpenRuns, Incoming;
    IncomingOk(th, run, ts, cpu, next);
    IncomingHere(th, ts, cpu, next);
    NoEviction(Incoming(th, ts, cpu, next), run[next := Slot(cpu, ts)], cpu, prev);
    ProcNextUnlessEvicts(th, ts, cpu, prev, next);
  }

  lemma CheckWakeupMaps(th: Threads, t: U32)
    requires th.InRange()
    ensures th.CheckWakeup(t).onCpu == th.onCpu
  {
  }

  /** The incoming thread's row is new, so it is not yet the one kept for the cpu. */
  lemma IncomingHere(th: Threads, ts: U64, cpu: U32, next: U32)
    requires th.InRange()
    ensures var out := Incoming(th, ts, cpu, next);
            && out.InRange() && |out.rows| > 0
            && out.rows[|out.rows| - 1] == StateRow(ts, INVALID_U64, cpu, next, TASK_RUNNING)
            && out.onCpu == th.onCpu && next in out.last && (cpu in out.onCpu ==> out.last[next].row != out.onCpu[cpu])
  {
    hide Threads.CheckWakeup, Threads.Advance;
    CheckWakeupMaps(th, next);
    AdvanceIsAdvanced(th.CheckWakeup(next), StateRow(ts, INVALID_U64, cpu, next, TASK_RUNNING));
  }

  lemma ProcNextUnlessEvicts(th: Threads, ts: U64, cpu: U32, prev: U32, next: U32)
    requires th.InRange() && !Incoming(th, ts, cpu, next).Evicts(cpu, prev)
    ensures var out := Incoming(th, ts, cpu, next);
            th.ProcNext(ts, cpu, prev, next) == out.(onCpu := out.onCpu[cpu := |out.rows| - 1])
  {
    hide Threads.CheckWakeup, Threads.Advance;
  }

  lemma ThreadsInRange(th: Threads, run: map<U32, Slot>)
    requires ThreadsOk(th, run)
    ensures th.InRange()
  {
  }

  lemma ProcNextOk(th: Threads, run: map<U32, Slot>, ts: U64, cpu: U32, prev: U32, next: U32)
    requires ThreadsOk(th, run) && next !in run
    requires forall t <- run :: run[t].cpu == cpu ==> t == prev
    ensures ThreadsOk(th.ProcNext(ts, cpu, prev, next), run[next := Slot(cpu, ts)])
  {
    hide ThreadsOk, Threads.ProcNext, Threads.CheckWakeup;
    assert th.InRange() by { ThreadsInRange(th, run); }
    ProcNextIsIncoming(th, run, ts, cpu, prev, next);
    IncomingOk(th, run, ts, cpu, next);
    IncomingHere(th, ts, cpu, next);
    var out := Incoming(th, ts, cpu, next);
    OnCpuOk(out, run[next := Slot(cpu, ts)], cpu, |out.rows| - 1);
  }

  /** The outgoing thread's row. */
  function Outgoing(th: Threads, ts: U64, prev: U32, prevState: TaskState): Threads
    requires th.InRange()
  {
    th.Advance(StateRow(ts, INVALID_U64, INVALID_U32, prev, prevState))
  }

  /** When the outgoing thread is remembered as running, or has no row yet, its switch-out is an ordinary advance. */
  lemma ProcPrevIsOutgoing(th: Threads, ts: U64, prev: U32, prevState: TaskState)
    requires th.InRange() && (prev in th.last ==> th.last[prev].state == TASK_RUNNING)
    ensures var out := Outgoing(th, ts, prev, prevState);
            th.ProcPrev(ts, prev, prevState) ==
              (if prev in th.last then out.(runnable := th.runnable - {prev}) else out)
              .RememberBlocked(prev, |th.rows|, prevState)
  {
    if prev in th.last && prev !in th.runnable {
      assert th.runnable - {prev} == th.runnable;
    }
  }

  lemma ProcPrevOk(th: Threads, run: map<U32, Slot>, ts: U64, prev: U32, prevState: TaskState)
    requires ThreadsOk(th, run) && prevState != TASK_RUNNING
    requires if prev in run then Sub64(ts, run[prev].since) != INVALID_U64 else prev !in th.last
    ensures var out := th.ProcPrev(ts, prev, prevState);
            ThreadsOk(out, run - {prev}) && out.rows == Outgoing(th, ts, prev, prevState).rows
  {
    ProcPrevIsOutgoing(th, ts, prev, prevState);
    AdvanceOk(th, run, StateRow(ts, INVALID_U64, INVALID_U32, prev, prevState));
    var out := Outgoing(th, ts, prev, prevState);
    SideMapsOk(out, run - {prev}, th.runnable - {prev});
    var calm := if prev in th.last then out.(runnable := th.runnable - {prev}) else out;
    BlockedOk(calm, run - {prev}, prev, |th.rows|, prevState);
  }

  lemma IncomingOthers(th: Threads, ts: U64, cpu: U32, next: U32)
    requires th.InRange()
    ensures OthersKept(th, Incoming(th, ts, cpu, next), next)
  {
  }

  lemma OutgoingOthers(th: Threads, ts: U64, prev: U32, prevState: TaskState)
    requires th.InRange()
    ensures OthersKept(th, th.ProcPrev(ts, prev, prevState), prev)
  {
  }
}
