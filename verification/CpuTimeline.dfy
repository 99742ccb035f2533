/** Each thread's `thread_state` rows tile time, over exactly the runs in which no thread is forgotten. */
module CpuTimeline {
  import opened MachineWords
  import opened CpuFilter
  import opened CpuSchedule
  import opened CpuAgreement

  // ---------- tiling ----------

  /** Rows i and j are neighbours on their thread's timeline. */
  ghost predicate Neighbours(rows: seq<StateRow>, i: int, j: int) {
    0 <= i < j < |rows| && rows[i].itid == rows[j].itid && forall k | i < k < j :: rows[k].itid != rows[i].itid
  }

  /** The remembered row of a thread is its last one, and it is open. */
  ghost predicate LastOpen(th: Threads)
    requires th.InRange()
  {
    && (forall t <- th.last :: th.rows[th.last[t].row].itid == t && th.rows[th.last[t].row].dur == INVALID_U64)
    && (forall i | 0 <= i < |th.rows| :: th.rows[i].itid in th.last && i <= th.last[th.rows[i].itid].row)
  }

  /** Every other row ends where its thread's next row starts. */
  ghost predicate Abut(rows: seq<StateRow>) {
    forall i, j | Neighbours(rows, i, j) :: rows[i].dur == Sub64(rows[j].ts, rows[i].ts)
  }

  ghost predicate Tiles(th: Threads) {
    th.InRange() && LastOpen(th) && Abut(th.rows)
  }

  /** Neighbours after an advance are old neighbours, or the thread's last row and the new one. */
  lemma NeighboursAdvanced(th: Threads, out: Threads, row: StateRow, i: int, j: int)
    requires Tiles(th) && Advanced(th, out, row) && Neighbours(out.rows, i, j)
    ensures if j < |th.rows| then Neighbours(th.rows, i, j)
            else row.itid in th.last && i == th.last[row.itid].row
  {
    if j < |th.rows| {
      forall k | i < k < j ensures th.rows[k].itid != th.rows[i].itid {
        assert out.rows[k].itid != out.rows[i].itid;
      }
    }
  }

  lemma AdvancedTiles(th: Threads, out: Threads, row: StateRow)
    requires Tiles(th) && Advanced(th, out, row) && row.dur == INVALID_U64
    ensures Tiles(out)
  {
    forall i, j | Neighbours(out.rows, i, j) ensures out.rows[i].dur == Sub64(out.rows[j].ts, out.rows[i].ts) {
      NeighboursAdvanced(th, out, row, i, j);
    }
  }

  lemma CheckWakeupTiles(th: Threads, t: U32)
    requires Tiles(th)
    ensures Tiles(th.CheckWakeup(t))
  {
    if t in th.runnable && th.StateOf(t) != TASK_RUNNING {
      var row := StateRow(th.runnable[t], INVALID_U64, INVALID_U32, t, TASK_RUNNABLE);
      AdvanceIsAdvanced(th, row);
      AdvancedTiles(th, th.Advance(row), row);
    }
  }

  lemma IncomingTiles(th: Threads, ts: U64, cpu: U32, next: U32)
    requires Tiles(th)
    ensures Tiles(Incoming(th, ts, cpu, next))
  {
    CheckWakeupTiles(th, next);
    var woken, row := th.CheckWakeup(next), StateRow(ts, INVALID_U64, cpu, next, TASK_RUNNING);
    AdvanceIsAdvanced(woken, row);
    AdvancedTiles(woken, woken.Advance(row), row);
  }

  /** Other events change nothing in the rows but labels. */
  ghost predicate OnlyLabels(rows: seq<StateRow>, out: seq<StateRow>) {
    |rows| == |out| && forall k | 0 <= k < |rows| :: out[k] == rows[k].(state := out[k].state)
  }

  lemma RecvRows(s: State, tx: U32, t: U32)
    requires s.InRange()
    ensures var th, out := s.threads, RecvStep(s, tx, t).threads;
            OnlyLabels(th.rows, out.rows) && out.last == th.last && out.onCpu == th.onCpu
  {
  }

  lemma OtherRows(s: State, cfg: Config, e: Event)
    requires s.InRange() && !e.Switch?
    ensures var th, out := s.threads, Step(s, cfg, e).threads;
            OnlyLabels(th.rows, out.rows) && out.last == th.last && out.onCpu == th.onCpu
  {
    hide RecvStep;
    if e.BinderRecv? { RecvRows(s, e.tx, e.itid); }
  }

  lemma LabelsTile(th: Threads, out: Threads)
    requires Tiles(th) && out.InRange() && OnlyLabels(th.rows, out.rows) && out.last == th.last
    ensures Tiles(out)
  {
    forall i, j | Neighbours(out.rows, i, j) ensures out.rows[i].dur == Sub64(out.rows[j].ts, out.rows[i].ts) {
      assert forall k | 0 <= k < |th.rows| :: out.rows[k].itid == th.rows[k].itid;
      assert Neighbours(th.rows, i, j);
    }
  }

  // ---------- what an advance leaves alone ----------

  /** Rows are appended for thread x only, and only its remembered row changes, in its duration. */
  ghost predicate Touches(th: Threads, out: Threads, x: U32)
    requires th.InRange() && out.InRange()
  {
    && OnlyDurations(th.rows, out.rows) && out.onCpu == th.onCpu
    && (forall i | 0 <= i < |th.rows| && !(x in th.last && i == th.last[x].row) :: out.rows[i] == th.rows[i])
    && out.last.Keys == th.last.Keys + {x} && out.last[x].row >= |th.rows|
    && (forall y <- th.last | y != x :: out.last[y] == th.last[y])
  }

  lemma AdvancedTouches(th: Threads, out: Threads, row: StateRow)
    requires Advanced(th, out, row)
    ensures Touches(th, out, row.itid)
  {
  }

  lemma IncomingTouches(th: Threads, ts: U64, cpu: U32, next: U32)
    requires th.InRange()
    ensures var out := Incoming(th, ts, cpu, next);
            && Touches(th, out, next) && out.last[next] == Remembered(|out.rows| - 1, TASK_RUNNING)
            && out.rows[|out.rows| - 1] == StateRow(ts, INVALID_U64, cpu, next, TASK_RUNNING)
  {
    hide Threads.Advance, Touches;
    var woken, row := th.CheckWakeup(next), StateRow(ts, INVALID_U64, cpu, next, TASK_RUNNING);
    AdvanceIsAdvanced(woken, row);
    AdvancedTouches(woken, woken.Advance(row), row);
    if next in th.runnable && th.StateOf(next) != TASK_RUNNING {
      var wake := StateRow(th.runnable[next], INVALID_U64, INVALID_U32, next, TASK_RUNNABLE);
      AdvanceIsAdvanced(th, wake);
      AdvancedTouches(th, th.Advance(wake), wake);
      TouchesAgain(th, th.Advance(wake), woken, woken.Advance(row), next);
    } else {
      TouchesSame(th, woken, woken.Advance(row), next);
    }
  }

  /** Touching does not look at pending wakeups. */
  lemma TouchesSame(th: Threads, same: Threads, out: Threads, x: U32)
    requires th.InRange() && same.InRange() && out.InRange() && same.rows == th.rows && same.last == th.last
    requires same.onCpu == th.onCpu && Touches(same, out, x)
    ensures Touches(th, out, x)
  {
  }

  lemma TouchesAgain(th: Threads, mid: Threads, same: Threads, out: Threads, x: U32)
    requires th.InRange() && mid.InRange() && Touches(th, mid, x)
    requires same.InRange() && out.InRange() && same.rows == mid.rows && same.last == mid.last
    requires same.onCpu == mid.onCpu && Touches(same, out, x)
    ensures Touches(th, out, x)
  {
  }

  // ---------- what the filter knows of the cpus ----------

  /** The remembered row of a running thread has its cpu and start. */
  ghost predicate RunHeld(th: Threads, run: map<U32, Slot>)
    requires th.InRange()
  {
    forall t <- run :: t in th.last && th.last[t].state == TASK_RUNNING
      && th.rows[th.last[t].row].cpu == run[t].cpu && th.rows[th.last[t].row].ts == run[t].since
  }

  /** The row kept for a cpu is its thread's remembered one, or on an idle cpu one that is open only if it was
    * rewound. */
  ghost predicate CpuHeld(th: Threads, c: U32, itid: U32, rewound: bool)
    requires th.InRange()
  {
    if itid != 0 then c in th.onCpu && itid in th.last && th.onCpu[c] == th.last[itid].row && !rewound
    else
      && (rewound ==> c in th.onCpu)
      && (c in th.onCpu ==>
            var row := th.rows[th.onCpu[c]];
            row.itid in th.last && th.last[row.itid].row != th.onCpu[c] && (row.dur == INVALID_U64 <==> rewound))
  }

  /** The cpus that went idle when a slice was closed one tick before it began. */
  function RewoundStep(rewound: set<U32>, a: Sched, e: Event): set<U32> {
    if !e.Switch? then rewound
    else if e.next == 0 && e.cpu in a.cur && Sub64(e.ts, a.cur[e.cpu].since) == INVALID_U64 then rewound + {e.cpu}
    else rewound - {e.cpu}
  }

  function Rewound(events: seq<Event>): set<U32> {
    if events == [] then {}
    else RewoundStep(Rewound(events[..|events| - 1]), Abs(events[..|events| - 1]), events[|events| - 1])
  }

  ghost predicate Followed(th: Threads, a: Sched, rewound: set<U32>) {
    && Tiles(th) && RunHeld(th, a.run) && Mirrors(a) && 0 !in a.seen && th.last.Keys <= a.seen
    && th.onCpu.Keys <= a.cur.Keys && rewound <= a.cur.Keys
    && forall c <- a.cur :: CpuHeld(th, c, a.cur[c].itid, c in rewound)
  }

  lemma TouchRun(th: Threads, out: Threads, x: U32, run: map<U32, Slot>)
    requires th.InRange() && out.InRange() && Touches(th, out, x) && RunHeld(th, run)
    requires forall y <- th.last :: th.rows[th.last[y].row].itid == y
    ensures RunHeld(out, run - {x})
  {
  }

  lemma TouchCpu(th: Threads, out: Threads, x: U32, c: U32, itid: U32, rewound: bool)
    requires th.InRange() && out.InRange() && Touches(th, out, x) && CpuHeld(th, c, itid, rewound) && x != itid
    requires forall y <- th.last :: th.rows[th.last[y].row].itid == y
    ensures CpuHeld(out, c, itid, rewound)
  {
  }

  /** A possible switch that brings no thread in on a rewound cpu. */
  ghost predicate Settles(a: Sched, rewound: set<U32>, e: Event) {
    e.Switch? && Possible(a, e) && (e.next != 0 ==> e.cpu !in rewound)
  }

  /** A switch-in evicts exactly when its cpu is idle after a slice closed one tick before it began. */
  lemma EvictsIfRewound(th: Threads, a: Sched, rewound: set<U32>, e: Event)
    requires Followed(th, a, rewound) && e.Switch? && Possible(a, e) && e.next != 0
    ensures Incoming(th, e.ts, e.cpu, e.next).Evicts(e.cpu, e.prev) <==> e.cpu in rewound
  {
    hide Abut, RunHeld, Incoming;
    IncomingTouches(th, e.ts, e.cpu, e.next);
  }

  // ---------- a switch ----------

  /** The cpu of a switch before its outgoing thread leaves. */
  ghost predicate CpuBetween(mid: Threads, a: Sched, e: Event)
    requires mid.InRange() && e.Switch?
  {
    if e.next != 0 then CpuHeld(mid, e.cpu, e.next, false)
    else if e.cpu in a.cur then CpuHeld(mid, e.cpu, e.prev, false)
    else e.cpu !in mid.onCpu
  }

  /** What holds between the two halves of a switch, when both threads count as running. */
  ghost predicate Between(mid: Threads, a: Sched, rewound: set<U32>, e: Event)
    requires e.Switch?
  {
    && Tiles(mid) && RunHeld(mid, RunIn(a, e)) && CpuBetween(mid, a, e)
    && mid.last.Keys <= a.seen + ({e.next} - {0}) && mid.onCpu.Keys <= a.cur.Keys + {e.cpu}
    && (forall c <- a.cur | c != e.cpu :: CpuHeld(mid, c, a.cur[c].itid, c in rewound))
  }

  lemma IncomingHolds(th: Threads, a: Sched, rewound: set<U32>, e: Event)
    requires Followed(th, a, rewound) && e.Switch? && Possible(a, e) && e.next != 0
    ensures var out := Incoming(th, e.ts, e.cpu, e.next);
            && Tiles(out) && RunHeld(out, RunIn(a, e)) && out.last.Keys <= a.seen + {e.next} && out.onCpu == th.onCpu
            && (forall c <- a.cur | c != e.cpu :: CpuHeld(out, c, a.cur[c].itid, c in rewound))
  {
    hide Abut, Incoming, CpuHeld;
    IncomingTouches(th, e.ts, e.cpu, e.next);
    IncomingTiles(th, e.ts, e.cpu, e.next);
    var out := Incoming(th, e.ts, e.cpu, e.next);
    TouchRun(th, out, e.next, a.run);
    forall c <- a.cur | c != e.cpu ensures CpuHeld(out, c, a.cur[c].itid, c in rewound) {
      TouchCpu(th, out, e.next, c, a.cur[c].itid, c in rewound);
    }
  }

  /** A thread's remembered row is kept for a cpu. */
  function KeepFor(th: Threads, c: U32, t: U32): Threads
    requires t in th.last
  {
    th.(onCpu := th.onCpu[c := th.last[t].row])
  }

  lemma KeepRow(th: Threads, c: U32, t: U32, run: map<U32, Slot>)
    requires Tiles(th) && t != 0 && t in th.last && RunHeld(th, run)
    ensures Tiles(KeepFor(th, c, t)) && CpuHeld(KeepFor(th, c, t), c, t, false) && RunHeld(KeepFor(th, c, t), run)
  {
  }

  lemma KeepOther(th: Threads, c: U32, t: U32, x: U32, itid: U32, rewound: bool)
    requires Tiles(th) && t in th.last && x != c && CpuHeld(th, x, itid, rewound)
    ensures KeepFor(th, c, t).InRange() && CpuHeld(KeepFor(th, c, t), x, itid, rewound)
  {
  }

  lemma SwitchInHolds(th: Threads, a: Sched, rewound: set<U32>, e: Event)
    requires Followed(th, a, rewound) && e.Switch? && Possible(a, e) && (e.next != 0 ==> e.cpu !in rewound)
    ensures Between(th.SwitchIn(e), a, rewound, e)
  {
    hide Followed, Possible, Between;
    FollowedParts(th, a, rewound);
    if e.next == 0 {
      NothingComesIn(th, a, rewound, e);
    } else {
      hide Threads.SwitchIn;
      SwitchInKeeps(th, a, rewound, e);
      KeptBetween(th, a, rewound, e);
    }
  }

  lemma KeptBetween(th: Threads, a: Sched, rewound: set<U32>, e: Event)
    requires Followed(th, a, rewound) && e.Switch? && Possible(a, e) && e.next != 0 && th.InRange()
    requires e.next in Incoming(th, e.ts, e.cpu, e.next).last
    ensures Between(KeepFor(Incoming(th, e.ts, e.cpu, e.next), e.cpu, e.next), a, rewound, e)
  {
    hide Abut, LastOpen, RunHeld, CpuHeld, Incoming, Followed, Possible, Threads.InRange;
    FollowedParts(th, a, rewound);
    IncomingHolds(th, a, rewound, e);
    var out := Incoming(th, e.ts, e.cpu, e.next);
    KeepRow(out, e.cpu, e.next, RunIn(a, e));
    forall c <- a.cur | c != e.cpu ensures CpuHeld(KeepFor(out, e.cpu, e.next), c, a.cur[c].itid, c in rewound) {
      KeepOther(out, e.cpu, e.next, c, a.cur[c].itid, c in rewound);
    }
  }

  /** A switch-in that evicts no thread keeps the new row for the cpu. */
  lemma SwitchInKeeps(th: Threads, a: Sched, rewound: set<U32>, e: Event)
    requires Followed(th, a, rewound) && e.Switch? && Possible(a, e) && e.next != 0 && e.cpu !in rewound
    ensures var out := Incoming(th, e.ts, e.cpu, e.next);
            e.next in out.last && th.SwitchIn(e) == KeepFor(out, e.cpu, e.next)
  {
    hide Abut, LastOpen, Incoming, RunHeld, CpuHeld, Mirrors, Possible, Threads.ProcNext, Threads.Evicts;
    EvictsIfRewound(th, a, rewound, e);
    ProcNextUnlessEvicts(th, e.ts, e.cpu, e.prev, e.next);
    IncomingRemembers(th, e.ts, e.cpu, e.next);
  }

  lemma IncomingRemembers(th: Threads, ts: U64, cpu: U32, next: U32)
    requires th.InRange()
    ensures var out := Incoming(th, ts, cpu, next); next in out.last && out.last[next].row == |out.rows| - 1
  {
    hide Incoming;
    IncomingTouches(th, ts, cpu, next);
  }

  lemma NothingComesIn(th: Threads, a: Sched, rewound: set<U32>, e: Event)
    requires Followed(th, a, rewound) && e.Switch? && Possible(a, e) && e.next == 0
    ensures Between(th, a, rewound, e)
  {
    hide Abut;
  }

  /** The outgoing thread is running here or has no row yet, so its switch-out is not stale. */
  lemma LeavesHere(mid: Threads, a: Sched, rewound: set<U32>, cfg: Config, e: Event)
    requires e.Switch? && Possible(a, e) && Mirrors(a) && Between(mid, a, rewound, e) && e.prev != 0
    ensures mid.Leaves(cfg, e) && (e.prev in mid.last ==> mid.last[e.prev].state == TASK_RUNNING)
    ensures e.cpu in a.cur ==> e.prev in mid.last && mid.rows[mid.last[e.prev].row].ts == a.cur[e.cpu].since
  {
    hide Abut, CpuHeld;
  }

  lemma PrevNowhereElse(a: Sched, e: Event)
    requires Mirrors(a) && 0 !in a.seen && e.Switch? && Possible(a, e) && e.prev != 0
    ensures forall c <- a.cur | c != e.cpu :: a.cur[c].itid != e.prev
  {
  }

  lemma OutgoingHolds(mid: Threads, a: Sched, rewound: set<U32>, cfg: Config, e: Event)
    requires e.Switch? && Possible(a, e) && Mirrors(a) && 0 !in a.seen && Between(mid, a, rewound, e) && e.prev != 0
    ensures var out := Outgoing(mid, e.ts, e.prev, e.prevState);
            && Tiles(out) && RunHeld(out, RunIn(a, e) - {e.prev}) && out.onCpu == mid.onCpu
            && out.last.Keys <= a.seen + {e.prev} + ({e.next} - {0})
            && (forall c <- a.cur | c != e.cpu :: CpuHeld(out, c, a.cur[c].itid, c in rewound))
            && CpuHeld(out, e.cpu, e.next, e.cpu in RewoundStep(rewound, a, e))
  {
    var row := StateRow(e.ts, INVALID_U64, INVALID_U32, e.prev, e.prevState);
    var out := mid.Advance(row);
    hide Abut, Threads.Advance;
    LeavesHere(mid, a, rewound, cfg, e);
    PrevNowhereElse(a, e);
    AdvanceIsAdvanced(mid, row);
    AdvancedTouches(mid, out, row);
    AdvancedTiles(mid, out, row);
    TouchRun(mid, out, e.prev, RunIn(a, e));
    forall c <- a.cur | c != e.cpu ensures CpuHeld(out, c, a.cur[c].itid, c in rewound) {
      TouchCpu(mid, out, e.prev, c, a.cur[c].itid, c in rewound);
    }
    if e.next != 0 {
      TouchCpu(mid, out, e.prev, e.cpu, e.next, false);
    } else {
      IdleAfter(mid, out, row, a, e);
    }
  }

  /** A cpu that goes idle keeps the row just closed, which looks open exactly if it was rewound. */
  lemma IdleAfter(mid: Threads, out: Threads, row: StateRow, a: Sched, e: Event)
    requires e.Switch? && e.next == 0 && e.prev != 0 && Tiles(mid) && CpuBetween(mid, a, e) && Advanced(mid, out, row)
    requires row.itid == e.prev && row.ts == e.ts
    requires e.cpu in a.cur ==> e.prev in mid.last && mid.rows[mid.last[e.prev].row].ts == a.cur[e.cpu].since
    ensures CpuHeld(out, e.cpu, 0, e.cpu in a.cur && Sub64(e.ts, a.cur[e.cpu].since) == INVALID_U64)
  {
    hide Abut;
  }

  /** The other maps of the threads do not matter. */
  lemma SameRows(th: Threads, out: Threads)
    requires th.InRange() && out.InRange() && out.rows == th.rows && out.last == th.last && out.onCpu == th.onCpu
    ensures Tiles(th) ==> Tiles(out)
    ensures forall run :: RunHeld(th, run) ==> RunHeld(out, run)
    ensures forall c, itid, rewound :: CpuHeld(th, c, itid, rewound) ==> CpuHeld(out, c, itid, rewound)
  {
  }

  lemma AfterSwitch(out: Threads, a: Sched, rewound: set<U32>, e: Event)
    requires e.Switch? && Mirrors(a) && Possible(a, e) && 0 !in a.seen && rewound <= a.cur.Keys
    requires Tiles(out) && RunHeld(out, RunIn(a, e) - {e.prev}) && out.onCpu.Keys <= a.cur.Keys + {e.cpu}
    requires out.last.Keys <= a.seen + ({e.prev, e.next} - {0})
    requires forall c <- a.cur | c != e.cpu :: CpuHeld(out, c, a.cur[c].itid, c in rewound)
    requires CpuHeld(out, e.cpu, e.next, e.cpu in RewoundStep(rewound, a, e))
    ensures Followed(out, AbsStep(a, e), RewoundStep(rewound, a, e))
  {
    MirrorsStep(a, e);
    hide Tiles, RunHeld, CpuHeld, Mirrors;
  }

  lemma SwitchOutHolds(mid: Threads, a: Sched, rewound: set<U32>, cfg: Config, e: Event)
    requires e.Switch? && Possible(a, e) && Mirrors(a) && 0 !in a.seen && Between(mid, a, rewound, e)
    requires rewound <= a.cur.Keys
    ensures Followed(mid.SwitchOut(cfg, e), AbsStep(a, e), RewoundStep(rewound, a, e))
  {
    hide Abut, LastOpen, RunHeld, CpuHeld, Mirrors, Followed, Possible, AbsStep, Threads.ProcPrev, Outgoing;
    var out := mid.SwitchOut(cfg, e);
    if e.prev != 0 {
      LeavesHere(mid, a, rewound, cfg, e);
      ProcPrevIsOutgoing(mid, e.ts, e.prev, e.prevState);
      OutgoingHolds(mid, a, rewound, cfg, e);
      SameRows(Outgoing(mid, e.ts, e.prev, e.prevState), out);
    } else {
      NothingLeaves(a, rewound, e);
    }
    AfterSwitch(out, a, rewound, e);
  }

  lemma NothingLeaves(a: Sched, rewound: set<U32>, e: Event)
    requires Mirrors(a) && e.Switch? && Possible(a, e) && e.prev == 0
    ensures RunIn(a, e) - {e.prev} == RunIn(a, e) && e.next != 0 && e.cpu !in RewoundStep(rewound, a, e)
  {
  }

  /** The rows of the two halves of a switch. */
  lemma SwitchHalves(th: Threads, a: Sched, rewound: set<U32>, cfg: Config, e: Event)
    requires Followed(th, a, rewound) && Settles(a, rewound, e)
    ensures var mid := th.SwitchIn(e);
            && Tiles(mid)
            && (if e.next == 0 then mid == th
                else
                  && mid.rows == Incoming(th, e.ts, e.cpu, e.next).rows
                  && mid.last == Incoming(th, e.ts, e.cpu, e.next).last)
    ensures var mid := th.SwitchIn(e);
            var out := mid.SwitchOut(cfg, e);
            if e.prev == 0 then out == mid
            else
              && mid.Leaves(cfg, e) && (e.prev in mid.last <==> e.cpu in a.cur)
              && (e.prev in mid.last ==> mid.last[e.prev].state == TASK_RUNNING)
              && out.rows == Outgoing(mid, e.ts, e.prev, e.prevState).rows
              && out.last == Outgoing(mid, e.ts, e.prev, e.prevState).last
  {
    hide Abut, LastOpen, RunHeld, CpuHeld, Incoming, Outgoing, Threads.ProcPrev, Threads.ProcNext;
    var mid := th.SwitchIn(e);
    SwitchInHolds(th, a, rewound, e);
    if e.next != 0 {
      SwitchInKeeps(th, a, rewound, e);
    }
    if e.prev != 0 {
      LeavesHere(mid, a, rewound, cfg, e);
      ProcPrevIsOutgoing(mid, e.ts, e.prev, e.prevState);
    }
  }

  lemma SwitchHolds(s: State, a: Sched, rewound: set<U32>, cfg: Config, e: Event)
    requires s.InRange() && Followed(s.threads, a, rewound) && e.Switch? && Possible(a, e)
    requires e.next != 0 ==> e.cpu !in rewound
    ensures Followed(Step(s, cfg, e).threads, AbsStep(a, e), RewoundStep(rewound, a, e))
  {
    hide Tiles, RunHeld, CpuHeld, Between, Possible, Step, Threads.SwitchIn, Threads.SwitchOut;
    FollowedParts(s.threads, a, rewound);
    SwitchInHolds(s.threads, a, rewound, e);
    SwitchOutHolds(s.threads.SwitchIn(e), a, rewound, cfg, e);
    SwitchThreads(s, cfg, e);
  }

  lemma FollowedParts(th: Threads, a: Sched, rewound: set<U32>)
    requires Followed(th, a, rewound)
    ensures th.InRange() && Mirrors(a) && 0 !in a.seen && rewound <= a.cur.Keys && th.onCpu.Keys <= a.cur.Keys
  {
  }

  lemma OtherHolds(s: State, a: Sched, rewound: set<U32>, cfg: Config, e: Event)
    requires s.InRange() && Followed(s.threads, a, rewound) && !e.Switch?
    ensures Followed(Step(s, cfg, e).threads, a, rewound)
  {
    hide Abut, Mirrors, Step;
    OtherRows(s, cfg, e);
    LabelsTile(s.threads, Step(s, cfg, e).threads);
  }

  // ---------- runs ----------

  /** A possible run in which no thread comes in on a cpu that is idle after a rewound slice. */
  ghost predicate Settled(events: seq<Event>) {
    events != [] ==>
      var rest, e := events[..|events| - 1], events[|events| - 1];
      Settled(rest) && Possible(Abs(rest), e) && !(e.Switch? && e.next != 0 && e.cpu in Rewound(rest))
  }

  lemma SettledSnoc(events: seq<Event>, e: Event)
    ensures Rewound(events + [e]) == RewoundStep(Rewound(events), Abs(events), e)
    ensures Settled(events + [e]) <==>
            Settled(events) && Possible(Abs(events), e) && (e.Switch? ==> Settles(Abs(events), Rewound(events), e))
  {
    assert (events + [e])[..|events|] == events;
  }

  lemma {:induction false} RunFollowed(cfg: Config, events: seq<Event>)
    requires Settled(events)
    ensures Followed(Run(cfg, events).threads, Abs(events), Rewound(events))
  {
    if events != [] {
      var rest, e := events[..|events| - 1], events[|events| - 1];
      RunFollowed(cfg, rest);
      hide Followed, Step, AbsStep, RewoundStep, Possible;
      if e.Switch? {
        SwitchHolds(Run(cfg, rest), Abs(rest), Rewound(rest), cfg, e);
      } else {
        OtherHolds(Run(cfg, rest), Abs(rest), Rewound(rest), cfg, e);
        assert AbsStep(Abs(rest), e) == Abs(rest) && RewoundStep(Rewound(rest), Abs(rest), e) == Rewound(rest) by {
          NotASwitch(Abs(rest), Rewound(rest), e);
        }
      }
    }
  }

  lemma NotASwitch(a: Sched, rewound: set<U32>, e: Event)
    requires !e.Switch?
    ensures AbsStep(a, e) == a && RewoundStep(rewound, a, e) == rewound
  {
  }

  /**
   * Over every settled run, whatever states threads leave in, the rows of each thread tile time: each ends
   * where the next starts, and the last one is open and remembered.
   */
  lemma RowsTile(cfg: Config, events: seq<Event>)
    requires Settled(events)
    ensures Tiles(Run(cfg, events).threads)
  {
    RunFollowed(cfg, events);
  }

  /** ClearInternalTidInStateTable is reached exactly by a switch-in on a cpu that is idle after a rewound slice. */
  lemma EvictsExactly(cfg: Config, events: seq<Event>, e: Event)
    requires Settled(events) && e.Switch? && Possible(Abs(events), e) && e.next != 0
    ensures Incoming(Run(cfg, events).threads, e.ts, e.cpu, e.next).Evicts(e.cpu, e.prev) <==> e.cpu in Rewound(events)
  {
    RunFollowed(cfg, events);
    EvictsIfRewound(Run(cfg, events).threads, Abs(events), Rewound(events), e);
  }

  /** An eviction leaves a thread with rows but none remembered. */
  lemma EvictionUntiles(th: Threads, cfg: Config, e: Event)
    requires th.InRange() && e.Switch? && e.next != 0 && e.prev == 0
    requires Incoming(th, e.ts, e.cpu, e.next).Evicts(e.cpu, e.prev)
    ensures !Tiles(th.SwitchIn(e).SwitchOut(cfg, e))
  {
    hide Abut, Threads.CheckWakeup, Threads.Advance;
    var mid := Incoming(th, e.ts, e.cpu, e.next);
    IncomingTouches(th, e.ts, e.cpu, e.next);
    var out := th.SwitchIn(e).SwitchOut(cfg, e);
    assert out.rows == mid.rows && mid.rows[mid.onCpu[e.cpu]].itid !in out.last;
  }

  ghost predicate TilesAfter(cfg: Config, events: seq<Event>, k: nat)
    requires k <= |events|
  {
    Tiles(Run(cfg, events[..k]).threads)
  }

  /** Event k is a switch-in that forgets a thread. */
  ghost predicate EvictsAt(cfg: Config, events: seq<Event>, k: nat)
    requires k < |events|
  {
    var e := events[k];
    e.Switch? && e.next != 0 && Incoming(Run(cfg, events[..k]).threads, e.ts, e.cpu, e.next).Evicts(e.cpu, e.prev)
  }

  /** The last event of a run that was settled before it. */
  lemma LastSettles(cfg: Config, events: seq<Event>)
    requires events != [] && Settled(events[..|events| - 1])
    requires Possible(Abs(events[..|events| - 1]), events[|events| - 1])
    ensures TilesAfter(cfg, events, |events|) <==> Settled(events)
    ensures !EvictsAt(cfg, events, |events| - 1) <==> Settled(events)
  {
    var rest, e := events[..|events| - 1], events[|events| - 1];
    assert events[..|events|] == events;
    hide Tiles, Incoming, Threads.Evicts, Step;
    if e.Switch? && e.next != 0 {
      EvictsExactly(cfg, rest, e);
    }
    if Settled(events) {
      RowsTile(cfg, events);
    } else {
      assert e.Switch? && e.next != 0 && e.cpu in Rewound(rest);
      RunFollowed(cfg, rest);
      RewoundIsIdle(Run(cfg, rest).threads, Abs(rest), Rewound(rest), e.cpu);
      EvictionUntiles(Run(cfg, rest).threads, cfg, e);
      SwitchThreads(Run(cfg, rest), cfg, e);
    }
  }

  lemma RewoundIsIdle(th: Threads, a: Sched, rewound: set<U32>, c: U32)
    requires Followed(th, a, rewound) && c in rewound
    ensures c in a.cur && a.cur[c].itid == 0 && th.InRange()
  {
  }

  /** Over any run of possible switches, rows tile at every moment if and only if the run is settled. */
  lemma {:induction false} TileThroughout(cfg: Config, events: seq<Event>)
    requires PossibleRun(events)
    ensures (forall k | 0 <= k <= |events| :: TilesAfter(cfg, events, k)) <==> Settled(events)
    decreases |events|
  {
    hide Run, Abs, Tiles, Possible, Rewound, EvictsAt;
    if events == [] {
      RowsTile(cfg, events);
      assert events[..0] == events;
    } else {
      var n := |events| - 1;
      var front := events[..n];
      TileThroughout(cfg, front);
      forall k | 0 <= k <= n ensures TilesAfter(cfg, front, k) == TilesAfter(cfg, events, k) {
        assert front[..k] == events[..k];
      }
      if Settled(front) {
        LastSettles(cfg, events);
        assert TilesAfter(cfg, events, n + 1) <==> Settled(events);
        assert forall k | 0 <= k <= n :: TilesAfter(cfg, front, k);
      } else {
        var k :| 0 <= k <= n && !TilesAfter(cfg, front, k);
        assert !TilesAfter(cfg, events, k);
      }
    }
  }

  /** Over any run of possible switches, no thread is ever forgotten if and only if the run is settled. */
  lemma {:induction false} NeverEvicts(cfg: Config, events: seq<Event>)
    requires PossibleRun(events)
    ensures (forall k | 0 <= k < |events| :: !EvictsAt(cfg, events, k)) <==> Settled(events)
    decreases |events|
  {
    hide Run, Abs, Possible, Rewound, TilesAfter, Incoming, Threads.Evicts;
    if events != [] {
      var n := |events| - 1;
      var front := events[..n];
      NeverEvicts(cfg, front);
      forall k | 0 <= k < n ensures EvictsAt(cfg, front, k) == EvictsAt(cfg, events, k) {
        assert front[..k] == events[..k];
      }
      if Settled(front) {
        LastSettles(cfg, events);
        assert !EvictsAt(cfg, events, n) <==> Settled(events);
        assert forall k | 0 <= k < n :: !EvictsAt(cfg, front, k);
      } else {
        var k :| 0 <= k < n && EvictsAt(cfg, front, k);
        assert EvictsAt(cfg, events, k);
      }
    }
  }

  /** On a consistent schedule no slice is rewound, so it is settled. */
  lemma {:induction false} ConsistentIsSettled(events: seq<Event>)
    requires Consistent(events)
    ensures Settled(events) && Rewound(events) == {}
  {
    if events != [] {
      ConsistentIsSettled(events[..|events| - 1]);
    }
  }

  /** A row before the thread's last one has a neighbour. */
  lemma NextRow(rows: seq<StateRow>, i: nat, last: nat) returns (j: nat)
    requires i < last < |rows| && rows[i].itid == rows[last].itid
    ensures Neighbours(rows, i, j)
  {
    j := i + 1;
    while rows[j].itid != rows[i].itid
      invariant i < j <= last && forall k | i < k < j :: rows[k].itid != rows[i].itid
      decreases last - j
    {
      j := j + 1;
    }
  }

  /**
   * Which rows are open: the remembered one, and otherwise exactly the rows whose successor starts one
   * tick before them. With timestamps that do not go back this leaves the remembered row alone.
   */
  lemma OpenExactly(cfg: Config, events: seq<Event>, i: nat)
    requires Settled(events) && i < |Run(cfg, events).threads.rows|
    ensures var th := Run(cfg, events).threads;
            var row := th.rows[i];
            row.itid in th.last &&
            (row.dur == INVALID_U64 <==>
               i == th.last[row.itid].row || exists j :: Neighbours(th.rows, i, j) && Add64(th.rows[j].ts, 1) == row.ts)
  {
    RowsTile(cfg, events);
    var th := Run(cfg, events).threads;
    hide Run;
    var last := th.last[th.rows[i].itid].row;
    if i < last {
      var j := NextRow(th.rows, i, last);
      assert th.rows[i].dur == Sub64(th.rows[j].ts, th.rows[i].ts);
      OneTick(th.rows[j].ts, th.rows[i].ts);
      forall k | Neighbours(th.rows, i, k) ensures k == j {}
    }
  }

  lemma OneTick(a: U64, b: U64)
    ensures Sub64(a, b) == INVALID_U64 <==> Add64(a, 1) == b
  {
  }
}
