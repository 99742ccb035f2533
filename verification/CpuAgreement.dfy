/** `sched_slice` and `thread_state` report the same execution over every consistent schedule. */
module CpuAgreement {
  import opened MachineWords
  import opened CpuFilter
  import opened CpuSchedule

  // ---------- the sched_slice table ----------

  /** The row kept for a cpu is the open slice of what the cpu is doing. */
  ghost predicate SlicesOk(sl: Slices, a: Sched) {
    && sl.InRange() && sl.onCpu.Keys == a.cur.Keys
    && forall c <- a.cur ::
         var row := sl.rows[sl.onCpu[c]];
         row.ts == a.cur[c].since && row.dur == INVALID_U64 && row.cpu == c && row.itid == a.cur[c].itid
  }

  lemma SlicesSwitchOk(sl: Slices, a: Sched, e: Event)
    requires SlicesOk(sl, a) && e.Switch?
    ensures SlicesOk(sl.Switch(e.ts, e.cpu, e.prevState, e.next, e.nextPrio), AbsStep(a, e))
  {
  }

  /** The slices after a switch: the outgoing thread's is closed, the incoming thread's is added. */
  ghost function BusyAfter(p: seq<Slice>, k: nat, a: Sched, e: Event): seq<Slice>
    requires e.Switch?
  {
    (if e.cpu in a.cur && e.prev != 0 then EndSlice(p, k, Sub64(e.ts, a.cur[e.cpu].since)) else p)
    + (if e.next != 0 then [Slice(e.ts, INVALID_U64, e.cpu, e.next)] else [])
  }

  lemma SlicesSwitchProject(sl: Slices, a: Sched, e: Event)
    requires SlicesOk(sl, a) && e.Switch? && Allowed(a, e)
    ensures var out := sl.Switch(e.ts, e.cpu, e.prevState, e.next, e.nextPrio);
            var p := Project(sl.rows, BusyView);
            && (forall i | 0 <= i <= |sl.rows| :: Rank(out.rows, BusyView, i) == Rank(sl.rows, BusyView, i))
            && Rank(out.rows, BusyView, |sl.rows|) == |p|
            && Project(out.rows, BusyView) ==
               BusyAfter(p, if e.cpu in sl.onCpu then Rank(sl.rows, BusyView, sl.onCpu[e.cpu]) else 0, a, e)
  {
    var row := SchedRow(e.ts, INVALID_U64, e.cpu, e.next, 0, e.nextPrio);
    var grown := sl.rows + [row];
    ProjectAppend(sl.rows, BusyView, row);
    assert sl.rows[..|sl.rows|] == sl.rows;
    if e.cpu in sl.onCpu {
      var r := sl.onCpu[e.cpu];
      var closed := grown[r].(dur := Sub64(e.ts, grown[r].ts), endState := e.prevState);
      ProjectUpdate(sl.rows, BusyView, r, closed);
      ProjectUpdate(grown, BusyView, r, closed);
      RankUpdate(grown, BusyView, r, closed);
    }
  }

  // ---------- the thread_state table ----------

  /** The running threads while both threads of a switch count as running. */
  function RunIn(a: Sched, e: Event): map<U32, Slot>
    requires e.Switch?
  {
    if e.next != 0 then a.run[e.next := Slot(e.cpu, e.ts)] else a.run
  }

  /** What is known of the tables and the schedule before a switch. */
  ghost predicate Ready(th: Threads, a: Sched, e: Event) {
    ThreadsOk(th, a.run) && Mirrors(a) && 0 !in a.seen && th.last.Keys <= a.seen && e.Switch? && Allowed(a, e)
  }

  lemma OnlyPrevHere(a: Sched, e: Event)
    requires Mirrors(a) && e.Switch? && Allowed(a, e)
    ensures forall t <- a.run :: a.run[t].cpu == e.cpu ==> t == e.prev
  {
  }

  lemma SwitchInOk(th: Threads, a: Sched, e: Event)
    requires Ready(th, a, e)
    ensures ThreadsOk(th.SwitchIn(e), RunIn(a, e)) && OthersKept(th, th.SwitchIn(e), e.next)
  {
    if e.next != 0 {
      OnlyPrevHere(a, e);
      ProcNextOk(th, a.run, e.ts, e.cpu, e.prev, e.next);
      ProcNextIsIncoming(th, a.run, e.ts, e.cpu, e.prev, e.next);
      IncomingOthers(th, e.ts, e.cpu, e.next);
    }
  }

  lemma SwitchInProject(th: Threads, a: Sched, e: Event)
    requires Ready(th, a, e)
    ensures var out := th.SwitchIn(e);
            RanksKept(th.rows, out.rows)
            && Project(out.rows, RunningView) ==
               Project(th.rows, RunningView) + (if e.next != 0 then [Slice(e.ts, INVALID_U64, e.cpu, e.next)] else [])
            && (e.next != 0 ==>
                  e.next in out.last
                  && Rank(out.rows, RunningView, out.last[e.next].row) == |Project(th.rows, RunningView)|)
  {
    if e.next != 0 {
      OnlyPrevHere(a, e);
      ProcNextIsIncoming(th, a.run, e.ts, e.cpu, e.prev, e.next);
      IncomingProject(th, a.run, e.ts, e.cpu, e.next);
    }
  }

  /** The outgoing thread is running here, or is met for the first time; either way it is not stale. */
  lemma SwitchOutLeaves(th: Threads, a: Sched, cfg: Config, e: Event)
    requires e.Switch? && Allowed(a, e) && e.prev != 0
    requires ThreadsOk(th, RunIn(a, e)) && Mirrors(a) && 0 !in a.seen && th.last.Keys <= a.seen + {e.next}
    ensures th.Leaves(cfg, e)
    ensures e.cpu in a.cur <==> e.prev in RunIn(a, e)
    ensures e.cpu in a.cur ==> RunIn(a, e)[e.prev] == Slot(e.cpu, a.cur[e.cpu].since)
    ensures e.cpu !in a.cur ==> e.prev !in th.last
  {
  }

  lemma SwitchOutOk(th: Threads, a: Sched, cfg: Config, e: Event)
    requires e.Switch? && Allowed(a, e)
    requires ThreadsOk(th, RunIn(a, e)) && Mirrors(a) && 0 !in a.seen && th.last.Keys <= a.seen + {e.next}
    ensures ThreadsOk(th.SwitchOut(cfg, e), AbsStep(a, e).run)
  {
    if e.prev != 0 {
      SwitchOutLeaves(th, a, cfg, e);
      ProcPrevOk(th, RunIn(a, e), e.ts, e.prev, e.prevState);
    } else {
      assert AbsStep(a, e).run == RunIn(a, e);
    }
  }

  lemma SwitchOutProject(th: Threads, a: Sched, cfg: Config, e: Event)
    requires e.Switch? && Allowed(a, e)
    requires ThreadsOk(th, RunIn(a, e)) && Mirrors(a) && 0 !in a.seen && th.last.Keys <= a.seen + {e.next}
    ensures var out := th.SwitchOut(cfg, e);
            var p := Project(th.rows, RunningView);
            OthersKept(th, out, e.prev) && RanksKept(th.rows, out.rows)
            && Project(out.rows, RunningView) ==
               if e.cpu in a.cur && e.prev != 0 && e.prev in th.last
               then EndSlice(p, Rank(th.rows, RunningView, th.last[e.prev].row), Sub64(e.ts, a.cur[e.cpu].since)) else p
  {
    if e.prev != 0 {
      SwitchOutLeaves(th, a, cfg, e);
      ProcPrevOk(th, RunIn(a, e), e.ts, e.prev, e.prevState);
      AdvanceProject(th, RunIn(a, e), StateRow(e.ts, INVALID_U64, INVALID_U32, e.prev, e.prevState));
      OutgoingOthers(th, e.ts, e.prev, e.prevState);
    }
  }

  lemma RankInside<T>(rows: seq<T>, view: T -> Option<Slice>, r: nat)
    requires r < |rows| && view(rows[r]).Some?
    ensures Rank(rows, view, r) < |Project(rows, view)|
  {
    ProjectUpdate(rows, view, r, rows[r]);
  }

  lemma EndSliceAppend(p: seq<Slice>, q: seq<Slice>, k: nat, dur: U64)
    requires k < |p|
    ensures EndSlice(p + q, k, dur) == EndSlice(p, k, dur) + q
  {
  }

  /** A switch leaves the rank of the outgoing thread's row alone until that row is closed. */
  lemma OutgoingRank(th: Threads, a: Sched, e: Event)
    requires Ready(th, a, e) && e.cpu in a.cur && e.prev != 0
    ensures e.prev in th.last && e.prev in th.SwitchIn(e).last
    ensures var k := Rank(th.rows, RunningView, th.last[e.prev].row);
            k < |Project(th.rows, RunningView)|
            && k == Rank(th.SwitchIn(e).rows, RunningView, th.SwitchIn(e).last[e.prev].row)
  {
    SwitchInOk(th, a, e);
    SwitchInProject(th, a, e);
    RankInside(th.rows, RunningView, th.last[e.prev].row);
  }

  /** A switch has the same effect on the slices that thread_state reports. */
  lemma ThreadsSwitchProject(th: Threads, a: Sched, cfg: Config, e: Event)
    requires Ready(th, a, e)
    ensures Project(th.SwitchIn(e).SwitchOut(cfg, e).rows, RunningView) ==
            BusyAfter(Project(th.rows, RunningView),
                      if e.prev in th.last then Rank(th.rows, RunningView, th.last[e.prev].row) else 0, a, e)
  {
    SwitchInOk(th, a, e);
    SwitchInProject(th, a, e);
    SwitchOutProject(th.SwitchIn(e), a, cfg, e);
    if e.cpu in a.cur && e.prev != 0 {
      OutgoingRank(th, a, e);
      EndSliceAppend(Project(th.rows, RunningView),
                     if e.next != 0 then [Slice(e.ts, INVALID_U64, e.cpu, e.next)] else [],
                     Rank(th.rows, RunningView, th.last[e.prev].row), Sub64(e.ts, a.cur[e.cpu].since));
    }
  }

  // ---------- both tables together ----------

  /** A running thread's row and its cpu's row are at the same place among the slices. */
  ghost predicate Paired(s: State, a: Sched)
    requires ThreadsOk(s.threads, a.run) && SlicesOk(s.slices, a) && Mirrors(a)
  {
    && Project(s.threads.rows, RunningView) == Project(s.slices.rows, BusyView)
    && forall t <- a.run ::
         Rank(s.threads.rows, RunningView, s.threads.last[t].row)
         == Rank(s.slices.rows, BusyView, s.slices.onCpu[a.run[t].cpu])
  }

  ghost predicate Agree(s: State, a: Sched) {
    && ThreadsOk(s.threads, a.run) && SlicesOk(s.slices, a) && Mirrors(a)
    && 0 !in a.seen && s.threads.last.Keys <= a.seen
    && Paired(s, a)
    && s.InRange() && NotedWaits(s.binder, s.threads.rows)
  }

  lemma SwitchTablesOk(s: State, a: Sched, cfg: Config, e: Event)
    requires Agree(s, a) && e.Switch? && Allowed(a, e)
    ensures var out := SwitchTables(s, cfg, e);
            ThreadsOk(out.threads, AbsStep(a, e).run) && SlicesOk(out.slices, AbsStep(a, e)) && Mirrors(AbsStep(a, e))
            && 0 !in AbsStep(a, e).seen && out.threads.last.Keys <= AbsStep(a, e).seen
  {
    hide RunRemembered, RestWaits, OpenRuns, Labels, SlicesOk, Paired, NotedWaits, Project, Threads.SwitchIn,
        Threads.SwitchOut;
    var mid := s.threads.SwitchIn(e);
    MirrorsStep(a, e);
    SlicesSwitchOk(s.slices, a, e);
    SwitchInOk(s.threads, a, e);
    SwitchOutOk(mid, a, cfg, e);
    SwitchSees(s.threads, cfg, e);
  }

  /** Only the two threads of a switch can be remembered anew. */
  lemma SwitchSees(th: Threads, cfg: Config, e: Event)
    requires th.InRange() && e.Switch?
    ensures th.SwitchIn(e).SwitchOut(cfg, e).last.Keys <= th.last.Keys + ({e.prev, e.next} - {0})
  {
    hide Threads.ProcPrev, Threads.CheckWakeup, Threads.Advance, Threads.ChangedCpu;
    var mid := th.SwitchIn(e);
    assert mid.last.Keys <= th.last.Keys + ({e.next} - {0}) by {
      IncomingOthers(th, e.ts, e.cpu, e.next);
    }
    OutgoingOthers(mid, e.ts, e.prev, e.prevState);
  }

  lemma SwitchProject(s: State, a: Sched, cfg: Config, e: Event)
    requires Agree(s, a) && e.Switch? && Allowed(a, e)
    ensures var out := SwitchTables(s, cfg, e);
            Project(out.threads.rows, RunningView) == Project(out.slices.rows, BusyView)
  {
    SlicesSwitchProject(s.slices, a, e);
    ThreadsSwitchProject(s.threads, a, cfg, e);
  }

  lemma ThreadRank(th: Threads, a: Sched, cfg: Config, e: Event, t: U32)
    requires Ready(th, a, e) && t in AbsStep(a, e).run
    ensures var out := th.SwitchIn(e).SwitchOut(cfg, e);
            t in out.last
            && Rank(out.rows, RunningView, out.last[t].row) ==
               if t == e.next then |Project(th.rows, RunningView)| else Rank(th.rows, RunningView, th.last[t].row)
  {
    hide Threads.SwitchIn, Threads.SwitchOut, Project, RestWaits, OpenRuns, Labels;
    SwitchInOk(th, a, e);
    SwitchInProject(th, a, e);
    SwitchOutProject(th.SwitchIn(e), a, cfg, e);
  }

  lemma SliceRank(sl: Slices, a: Sched, e: Event, c: U32)
    requires SlicesOk(sl, a) && e.Switch? && Allowed(a, e) && (c == e.cpu || c in a.cur)
    ensures var out := sl.Switch(e.ts, e.cpu, e.prevState, e.next, e.nextPrio);
            Rank(out.rows, BusyView, out.onCpu[c]) ==
            if c == e.cpu then |Project(sl.rows, BusyView)| else Rank(sl.rows, BusyView, sl.onCpu[c])
  {
    SlicesSwitchProject(sl, a, e);
  }

  lemma SwitchRanks(s: State, a: Sched, cfg: Config, e: Event, t: U32)
    requires Agree(s, a) && e.Switch? && Allowed(a, e) && t in AbsStep(a, e).run
    ensures var out := SwitchTables(s, cfg, e);
            t in out.threads.last && AbsStep(a, e).run[t].cpu in out.slices.onCpu
            && Rank(out.threads.rows, RunningView, out.threads.last[t].row)
               == Rank(out.slices.rows, BusyView, out.slices.onCpu[AbsStep(a, e).run[t].cpu])
  {
    ThreadRank(s.threads, a, cfg, e, t);
    var c := AbsStep(a, e).run[t].cpu;
    assert t != e.next ==> c == a.run[t].cpu && c in a.cur && c != e.cpu;
    SliceRank(s.slices, a, e, c);
  }

  lemma SwitchPaired(s: State, a: Sched, cfg: Config, e: Event)
    requires Agree(s, a) && e.Switch? && Allowed(a, e)
    requires var out := SwitchTables(s, cfg, e);
             ThreadsOk(out.threads, AbsStep(a, e).run) && SlicesOk(out.slices, AbsStep(a, e)) && Mirrors(AbsStep(a, e))
    ensures Paired(SwitchTables(s, cfg, e), AbsStep(a, e))
  {
    SwitchProject(s, a, cfg, e);
    forall t <- AbsStep(a, e).run
      ensures Rank(SwitchTables(s, cfg, e).threads.rows, RunningView, SwitchTables(s, cfg, e).threads.last[t].row)
              == Rank(SwitchTables(s, cfg, e).slices.rows, BusyView,
                      SwitchTables(s, cfg, e).slices.onCpu[AbsStep(a, e).run[t].cpu])
    {
      SwitchRanks(s, a, cfg, e, t);
    }
  }

  /** Rows noted for binder transactions are never RUNNING rows. */
  ghost predicate NotedWaits(b: Binder, rows: seq<StateRow>)
  {
    forall x <- b.info :: b.info[x].state.Some? ==>
      b.info[x].state.value < |rows| && rows[b.info[x].state.value].state != TASK_RUNNING
  }

  lemma NoteWaits(b: Binder, rows: seq<StateRow>, out: seq<StateRow>, prevState: TaskState, noted: BinderInfo)
    requires NotedWaits(b, rows) && OnlyDurations(rows, out)
    requires noted.state.Some? ==> noted.state.value < |out| && out[noted.state.value].state != TASK_RUNNING
    ensures NotedWaits(b, out) && NotedWaits(b.Note(prevState, noted), out)
  {
  }

  lemma SwitchNoted(s: State, cfg: Config, e: Event)
    requires s.InRange() && NotedWaits(s.binder, s.threads.rows)
    requires e.Switch? && (e.prev != 0 ==> e.prevState != TASK_RUNNING)
    ensures NotedWaits(SwitchStep(s, cfg, e).binder, SwitchStep(s, cfg, e).threads.rows)
  {
    var mid, out := s.threads.SwitchIn(e), SwitchTables(s, cfg, e).threads;
    SwitchInRows(s.threads, e);
    SwitchOutRows(mid, cfg, e);
    assert OnlyDurations(s.threads.rows, out.rows);
    NoteWaits(s.binder, s.threads.rows, out.rows, e.prevState, SwitchInfo(s, cfg, e));
  }

  // ---------- the other events ----------

  /** Changing the label of a waiting row to another waiting label. */
  function Relabel(th: Threads, r: nat, state: TaskState): Threads
    requires r < |th.rows|
  {
    th.(rows := th.rows[r := th.rows[r].(state := state)])
  }

  lemma RelabelOk(th: Threads, run: map<U32, Slot>, r: nat, state: TaskState)
    requires ThreadsOk(th, run) && r < |th.rows| && th.rows[r].state != TASK_RUNNING && state != TASK_RUNNING
    ensures ThreadsOk(Relabel(th, r, state), run)
  {
  }

  lemma RelabelAgrees(s: State, a: Sched, r: nat, state: TaskState)
    requires Agree(s, a) && r < |s.threads.rows| && s.threads.rows[r].state != TASK_RUNNING && state != TASK_RUNNING
    ensures Agree(s.(threads := Relabel(s.threads, r, state)), a)
  {
    var row := s.threads.rows[r].(state := state);
    RelabelOk(s.threads, a.run, r, state);
    ProjectUpdate(s.threads.rows, RunningView, r, row);
    RankUpdate(s.threads.rows, RunningView, r, row);
  }

  /** Agreement does not look at pending wakeups, blocked-reason rows or end states. */
  lemma SideMapsAgree(s: State, a: Sched, runnable: map<U32, U64>, blocked: map<U32, nat>)
    requires Agree(s, a) && blocked.Keys <= s.threads.blocked.Keys
    requires forall t <- blocked :: blocked[t] == s.threads.blocked[t]
    ensures Agree(s.(threads := s.threads.(runnable := runnable, blocked := blocked)), a)
  {
  }

  lemma EndStateAgrees(s: State, a: Sched, i: nat, endState: TaskState)
    requires Agree(s, a) && i < |s.slices.rows|
    ensures Agree(s.(slices := s.slices.(rows := s.slices.rows[i := s.slices.rows[i].(endState := endState)])), a)
  {
    var row := s.slices.rows[i].(endState := endState);
    ProjectUpdate(s.slices.rows, BusyView, i, row);
    RankUpdate(s.slices.rows, BusyView, i, row);
  }

  lemma RecvAgrees(s: State, a: Sched, tx: U32, t: U32)
    requires Agree(s, a)
    ensures Agree(RecvStep(s, tx, t), a)
  {
    if s.binder.Relabels(tx, t) {
      var i, j := s.binder.info[tx].sched.value, s.binder.info[tx].state.value;
      EndStateAgrees(s, a, i, TASK_RUNNABLE_BINDER);
      var row := s.slices.rows[i].(endState := TASK_RUNNABLE_BINDER);
      RelabelAgrees(s.(slices := s.slices.(rows := s.slices.rows[i := row])), a, j, TASK_RUNNABLE_BINDER);
    }
  }

  lemma BlockedAgrees(s: State, a: Sched, t: U32, iowait: bool)
    requires Agree(s, a)
    ensures Agree(s.(threads := s.threads.BlockedReason(t, iowait)), a)
  {
    if t in s.threads.blocked {
      var r := s.threads.blocked[t];
      RelabelAgrees(s, a, r, BlockedLabel(s.threads.rows[r].state, iowait));
      SideMapsAgree(s.(threads := Relabel(s.threads, r, BlockedLabel(s.threads.rows[r].state, iowait))), a,
                    s.threads.runnable, s.threads.blocked - {t});
    }
  }

  lemma SwitchAgrees(s: State, a: Sched, cfg: Config, e: Event)
    requires Agree(s, a) && e.Switch? && Allowed(a, e)
    ensures Agree(SwitchStep(s, cfg, e), AbsStep(a, e))
  {
    SwitchTablesOk(s, a, cfg, e);
    SwitchPaired(s, a, cfg, e);
    SwitchNoted(s, cfg, e);
  }

  lemma StepAgrees(s: State, a: Sched, cfg: Config, e: Event)
    requires Agree(s, a) && Allowed(a, e)
    ensures Agree(Step(s, cfg, e), AbsStep(a, e))
  {
    match e
    case Switch(_, _, _, _, _, _) => SwitchAgrees(s, a, cfg, e);
    case Wakeup(ts, t, isWaking) => SideMapsAgree(s, a, s.threads.Wakeup(ts, t, isWaking).runnable, s.threads.blocked);
    case Blocked(t, iowait) => BlockedAgrees(s, a, t, iowait);
    case BinderSend(tx, t) =>
    case BinderRecv(tx, t) => RecvAgrees(s, a, tx, t);
  }

  lemma {:induction false} RunAgrees(cfg: Config, events: seq<Event>)
    requires Consistent(events)
    ensures Agree(Run(cfg, events), Abs(events))
  {
    if events != [] {
      var n := |events| - 1;
      RunAgrees(cfg, events[..n]);
      StepAgrees(Run(cfg, events[..n]), Abs(events[..n]), cfg, events[n]);
    }
  }

  /** What the tables promise about each other and about the cpus. */
  ghost predicate Same(s: State, a: Sched)
    requires s.InRange()
  {
    && Project(s.threads.rows, RunningView) == Project(s.slices.rows, BusyView)
    && (forall i | 0 <= i < |s.threads.rows| && OpenRunning(s.threads.rows[i]) ::
          var row := s.threads.rows[i];
          row.cpu in a.cur && a.cur[row.cpu] == OnCpu(row.itid, row.ts) && row.itid != 0
          && row.itid in s.threads.last && s.threads.last[row.itid].row == i)
    && (forall c <- a.cur | a.cur[c].itid != 0 ::
          a.cur[c].itid in s.threads.last
          && s.threads.rows[s.threads.last[a.cur[c].itid].row]
             == StateRow(a.cur[c].since, INVALID_U64, c, a.cur[c].itid, TASK_RUNNING))
  }

  /**
   * Over every consistent schedule, with any other events interleaved, the RUNNING rows of
   * thread_state and the non-idle rows of sched_slice are the same slices in the same order:
   * same start, same duration (so both close together), same cpu, same thread. The open RUNNING
   * rows are exactly the threads now on a cpu, one row each.
   */
  lemma TablesAgree(cfg: Config, events: seq<Event>)
    requires Consistent(events)
    ensures Same(Run(cfg, events), Abs(events))
  {
    RunAgrees(cfg, events);
  }
}
