/** The filter object itself: tables and side maps updated in place, event by event. */
module CpuFilterObject {
  import opened MachineWords
  import opened CpuFilter
  import CpuSchedule
  import CpuAgreement
  import CpuTimeline

  class Filter {
    const cfg: Config
    var schedSlice: seq<SchedRow>
    var threadState: seq<StateRow>
    var cpuToRowSched: map<U32, nat>
    var cpuToRowThreadState: map<U32, nat>
    var internalTidToRowThreadState: map<U32, Remembered>
    var toRunnableTid: map<U32, U64>
    var pidToThreadSliceRow: map<U32, nat>
    var iTidToTransaction: map<U32, U32>
    var transactionIdToInfo: map<U32, BinderInfo>

    ghost function SliceView(): Slices reads this { Slices(schedSlice, cpuToRowSched) }

    ghost function ThreadView(): Threads reads this {
      Threads(threadState, cpuToRowThreadState, internalTidToRowThreadState, toRunnableTid, pidToThreadSliceRow)
    }

    ghost function BinderView(): Binder reads this { Binder(iTidToTransaction, transactionIdToInfo) }

    ghost function View(): State reads this { State(SliceView(), ThreadView(), BinderView()) }

    constructor (cfg: Config)
      ensures View() == EMPTY && this.cfg == cfg
    {
      this.cfg := cfg;
      schedSlice, threadState := [], [];
      cpuToRowSched, cpuToRowThreadState, internalTidToRowThreadState := map[], map[], map[];
      toRunnableTid, pidToThreadSliceRow := map[], map[];
      iTidToTransaction, transactionIdToInfo := map[], map[];
    }

    method UpdateDuration(row: nat, ts: U64)
      requires row < |threadState|
      modifies this`threadState
      ensures threadState == CloseState(old(threadState), row, ts)
    {
      if threadState[row].dur == INVALID_U64 {
        threadState := threadState[row := threadState[row].(dur := Sub64(ts, threadState[row].ts))];
      }
    }

    method AppendAndRemember(row: StateRow)
      requires ThreadView().InRange()
      modifies this`threadState, this`internalTidToRowThreadState
      ensures ThreadView() == old(ThreadView()).Append(row)
    {
      threadState := threadState + [row];
      internalTidToRowThreadState := internalTidToRowThreadState[row.itid := Remembered(|threadState| - 1, row.state)];
    }

    /** Closes the thread's remembered row at the start of the new one, which is appended and remembered. */
    method EndAndAppend(row: StateRow)
      requires ThreadView().InRange()
      modifies this`threadState, this`internalTidToRowThreadState
      ensures ThreadView() == old(ThreadView()).Advance(row)
    {
      if row.itid in internalTidToRowThreadState {
        UpdateDuration(internalTidToRowThreadState[row.itid].row, row.ts);
      }
      AppendAndRemember(row);
    }

    method CheckWakeupEvent(t: U32)
      requires ThreadView().InRange()
      modifies this`threadState, this`internalTidToRowThreadState, this`toRunnableTid
      ensures ThreadView() == old(ThreadView()).CheckWakeup(t)
    {
      if t in toRunnableTid {
        if t in internalTidToRowThreadState && internalTidToRowThreadState[t].state == TASK_RUNNING {
          toRunnableTid := toRunnableTid - {t};
          return;
        }
        EndAndAppend(StateRow(toRunnableTid[t], INVALID_U64, INVALID_U32, t, TASK_RUNNABLE));
        toRunnableTid := toRunnableTid - {t};
      }
    }

    /** Only one thread runs on a cpu at a time: a row left open there is forgotten. */
    method OccupyCpu(cpu: U32, prev: U32)
      requires ThreadView().InRange() && |threadState| > 0
      modifies this`internalTidToRowThreadState, this`cpuToRowThreadState
      ensures ThreadView() ==
              old(ThreadView()).Evict(cpu, prev).(onCpu := old(cpuToRowThreadState)[cpu := |threadState| - 1])
    {
      if cpu in cpuToRowThreadState {
        var row := threadState[cpuToRowThreadState[cpu]];
        if row.itid != prev {
          // End() only reports whether the row was closed: what it writes is the mark of an open row.
          if row.dur == INVALID_U64 {
            internalTidToRowThreadState := internalTidToRowThreadState - {row.itid};
          }
        }
      }
      cpuToRowThreadState := cpuToRowThreadState[cpu := |threadState| - 1];
    }

    method ProcNextPidSwitchEvent(ts: U64, cpu: U32, prev: U32, next: U32)
      requires ThreadView().InRange()
      modifies this`threadState, this`internalTidToRowThreadState, this`toRunnableTid, this`cpuToRowThreadState
      ensures ThreadView() == old(ThreadView()).ProcNext(ts, cpu, prev, next)
    {
      CheckWakeupEvent(next);
      EndAndAppend(StateRow(ts, INVALID_U64, cpu, next, TASK_RUNNING));
      OccupyCpu(cpu, prev);
    }

    method ProcPrevPidSwitchEvent(ts: U64, cpu: U32, prev: U32, prevState: TaskState)
        returns (threadStateRow: Option<nat>)
      requires ThreadView().InRange()
      modifies this`threadState, this`internalTidToRowThreadState, this`toRunnableTid, this`pidToThreadSliceRow
      ensures if old(ThreadView()).ChangedCpu(cfg, ts, cpu, prev)
              then ThreadView() == old(ThreadView()) && threadStateRow == None
              else
                && ThreadView() == old(ThreadView()).ProcPrev(ts, prev, prevState)
                && threadStateRow == Some(|threadState| - 1)
    {
      hide Threads.CheckWakeup, CloseState;
      if prev in internalTidToRowThreadState {
        var lastRow := internalTidToRowThreadState[prev].row;
        var last := threadState[lastRow];
        if cpu != last.cpu && last.state == TASK_RUNNING && (cfg.hmKernel || ts == last.ts) {
          return None;
        }
        CheckWakeupEvent(prev);
        UpdateDuration(lastRow, ts);
      }
      AppendAndRemember(StateRow(ts, INVALID_U64, INVALID_U32, prev, prevState));
      var row := |threadState| - 1;
      if prevState == TASK_UNINTERRUPTIBLE || prevState == TASK_DK {
        pidToThreadSliceRow := pidToThreadSliceRow[prev := row];
      } else {
        pidToThreadSliceRow := pidToThreadSliceRow - {prev};
      }
      return Some(row);
    }

    method TransactionClear(from: U32, tx: U32)
      modifies this`iTidToTransaction, this`transactionIdToInfo
      ensures BinderView() == old(BinderView()).Clear(from, tx)
    {
      iTidToTransaction := iTidToTransaction - {from};
      if tx in transactionIdToInfo {
        iTidToTransaction := iTidToTransaction - {transactionIdToInfo[tx].from};
        transactionIdToInfo := transactionIdToInfo - {tx};
      }
    }

    method AppendSchedSlice(ts: U64, cpu: U32, prevState: TaskState, next: U32, prio: int) returns (closed: Option<nat>)
      requires SliceView().InRange()
      modifies this`schedSlice, this`cpuToRowSched
      ensures SliceView() == old(SliceView()).Switch(ts, cpu, prevState, next, prio)
      ensures closed == if cpu in old(cpuToRowSched) then Some(old(cpuToRowSched)[cpu]) else None
    {
      schedSlice := schedSlice + [SchedRow(ts, INVALID_U64, cpu, next, 0, prio)];
      var index := |schedSlice| - 1;
      closed := None;
      if cpu in cpuToRowSched {
        var row := cpuToRowSched[cpu];
        schedSlice := schedSlice[row := schedSlice[row].(dur := Sub64(ts, schedSlice[row].ts), endState := prevState)];
        closed := Some(row);
      }
      cpuToRowSched := cpuToRowSched[cpu := index];
    }

    method NoteTransaction(prevState: TaskState, noted: BinderInfo)
      modifies this`iTidToTransaction, this`transactionIdToInfo
      ensures BinderView() == old(BinderView()).Note(prevState, noted)
    {
      if noted.from in iTidToTransaction {
        var tx := iTidToTransaction[noted.from];
        if prevState != TASK_NEW || tx !in transactionIdToInfo || transactionIdToInfo[tx].from != noted.from
           || noted.sched.None? || noted.state.None? {
          // The source passes the state where the thread is expected.
          TransactionClear(prevState, tx);
          return;
        }
        transactionIdToInfo := transactionIdToInfo[tx := noted];
      }
    }

    /** The thread_state half of a switch; returns the outgoing thread's row. */
    method SwitchThreadStates(ghost e: Event, ts: U64, cpu: U32, prev: U32, prevState: TaskState, next: U32)
      returns (row: Option<nat>)
      requires ThreadView().InRange()
      requires e.Switch? && e.ts == ts && e.cpu == cpu && e.prev == prev && e.prevState == prevState && e.next == next
      modifies this`threadState, this`internalTidToRowThreadState, this`toRunnableTid, this`cpuToRowThreadState,
               this`pidToThreadSliceRow
      ensures ThreadView() == old(ThreadView()).SwitchIn(e).SwitchOut(cfg, e)
      ensures row == if old(ThreadView()).SwitchIn(e).Leaves(cfg, e) then Some(|threadState| - 1) else None
    {
      hide Threads.ProcNext, Threads.ProcPrev, Threads.ChangedCpu;
      if next != 0 {
        ProcNextPidSwitchEvent(ts, cpu, prev, next);
      }
      assert ThreadView() == old(ThreadView()).SwitchIn(e);
      row := None;
      if prev != 0 {
        row := ProcPrevPidSwitchEvent(ts, cpu, prev, prevState);
      }
    }

    method InsertSwitchEvent(ts: U64, cpu: U32, prev: U32, prevState: TaskState, next: U32, nextPrio: int)
      requires View().InRange()
      modifies this
      ensures View() == Step(old(View()), cfg, Switch(ts, cpu, prev, prevState, next, nextPrio))
    {
      hide Slices.Switch, Threads.SwitchIn, Threads.SwitchOut, Threads.Leaves, Binder.Note;
      var closed := AppendSchedSlice(ts, cpu, prevState, next, nextPrio);
      var row := SwitchThreadStates(Switch(ts, cpu, prev, prevState, next, nextPrio), ts, cpu, prev, prevState, next);
      if cfg.binderRunnable {
        NoteTransaction(prevState, BinderInfo(prev, next, closed, row));
      }
    }

    method InsertWakeupEvent(ts: U64, t: U32, isWaking: bool)
      requires View().InRange()
      modifies this`toRunnableTid
      ensures View() == Step(old(View()), cfg, Wakeup(ts, t, isWaking))
    {
      if !isWaking && t !in toRunnableTid {
        toRunnableTid := toRunnableTid[t := ts];
      }
    }

    method InsertBlockedReasonEvent(t: U32, iowait: bool) returns (known: bool)
      requires View().InRange()
      modifies this`threadState, this`pidToThreadSliceRow
      ensures View() == Step(old(View()), cfg, Blocked(t, iowait))
      ensures known == (t in old(pidToThreadSliceRow))
    {
      if t !in pidToThreadSliceRow {
        return false;
      }
      var row := pidToThreadSliceRow[t];
      var state := threadState[row].state;
      if iowait {
        if state == TASK_UNINTERRUPTIBLE {
          threadState := threadState[row := threadState[row].(state := TASK_UNINTERRUPTIBLE_IO)];
        } else if state == TASK_DK {
          threadState := threadState[row := threadState[row].(state := TASK_DK_IO)];
        }
      } else {
        if state == TASK_UNINTERRUPTIBLE {
          threadState := threadState[row := threadState[row].(state := TASK_UNINTERRUPTIBLE_NIO)];
        } else if state == TASK_DK {
          threadState := threadState[row := threadState[row].(state := TASK_DK_NIO)];
        }
      }
      pidToThreadSliceRow := pidToThreadSliceRow - {t};
      return true;
    }

    method InsertRunnableBinderEvent(tx: U32, t: U32)
      requires View().InRange()
      modifies this`iTidToTransaction, this`transactionIdToInfo
      ensures View() == Step(old(View()), cfg, BinderSend(tx, t))
    {
      iTidToTransaction := iTidToTransaction[t := tx];
      transactionIdToInfo := transactionIdToInfo[tx := BinderInfo(t, INVALID_U32, None, None)];
    }

    method InsertRunnableBinderRecvEvent(tx: U32, t: U32)
      requires View().InRange()
      modifies this`schedSlice, this`threadState, this`iTidToTransaction, this`transactionIdToInfo
      ensures View() == Step(old(View()), cfg, BinderRecv(tx, t))
    {
      if tx !in transactionIdToInfo {
        return;
      }
      var info := transactionIdToInfo[tx];
      if info.to == t && info.sched.Some? && info.state.Some? {
        var i, j := info.sched.value, info.state.value;
        schedSlice := schedSlice[i := schedSlice[i].(endState := TASK_RUNNABLE_BINDER)];
        threadState := threadState[j := threadState[j].(state := TASK_RUNNABLE_BINDER)];
      }
      TransactionClear(INVALID_U32, tx);
    }

    method Insert(e: Event)
      requires View().InRange()
      modifies this
      ensures View() == Step(old(View()), cfg, e)
    {
      match e
      case Switch(ts, cpu, prev, prevState, next, nextPrio) =>
        InsertSwitchEvent(ts, cpu, prev, prevState, next, nextPrio);
      case Wakeup(ts, t, isWaking) => InsertWakeupEvent(ts, t, isWaking);
      case Blocked(t, iowait) => var _ := InsertBlockedReasonEvent(t, iowait);
      case BinderSend(tx, t) => InsertRunnableBinderEvent(tx, t);
      case BinderRecv(tx, t) => InsertRunnableBinderRecvEvent(tx, t);
    }

    /** A whole trace fed to a fresh filter: a consistent one leaves agreeing tables, a settled one tiled rows. */
    method Replay(events: seq<Event>)
      requires View() == EMPTY
      modifies this
      ensures View() == Run(cfg, events)
      ensures CpuSchedule.Consistent(events) ==>
                CpuSchedule.Project(threadState, CpuSchedule.RunningView)
                    == CpuSchedule.Project(schedSlice, CpuSchedule.BusyView)
      ensures CpuTimeline.Settled(events) ==> CpuTimeline.Tiles(ThreadView())
    {
      for k := 0 to |events|
        invariant View() == Run(cfg, events[..k])
      {
        Insert(events[k]);
        assert events[..k + 1][..k] == events[..k];
      }
      assert events[..|events|] == events;
      if CpuSchedule.Consistent(events) {
        CpuAgreement.TablesAgree(cfg, events);
      }
      if CpuTimeline.Settled(events) {
        CpuTimeline.RowsTile(cfg, events);
      }
    }
  }
}
