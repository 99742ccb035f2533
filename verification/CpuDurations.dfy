/** Exactly when the durations of a thread's rows are never negative. */
module CpuDurations {
  import opened MachineWords
  import opened CpuFilter
  import opened CpuSchedule
  import opened CpuTimeline
  import opened CpuWakeups

  function Now(events: seq<Event>): U64 {
    if events == [] then 0
    else
      var e := events[|events| - 1];
      if e.Switch? || e.Wakeup? then e.ts else Now(events[..|events| - 1])
  }

  ghost predicate NonDecreasing(events: seq<Event>) {
    events != [] ==>
      NonDecreasing(events[..|events| - 1]) && Now(events[..|events| - 1]) <= Now(events)
  }

  /** Thread t was, at some time, switched out for the first time with a wakeup pending. */
  ghost predicate EverStale(events: seq<Event>, t: U32) {
    StaleWake(events, t).Some? || (events != [] && EverStale(events[..|events| - 1], t))
  }

  /** The rows of thread t start in row order, so each duration is the true distance to the next start. */
  ghost predicate Ordered(rows: seq<StateRow>, t: U32) {
    forall i, j | Neighbours(rows, i, j) && rows[i].itid == t :: rows[i].ts <= rows[j].ts
  }

  ghost predicate Bounded(th: Threads, now: U64) {
    && (forall i | 0 <= i < |th.rows| :: th.rows[i].ts <= now)
    && (forall t <- th.runnable :: th.runnable[t] <= now)
  }

  /** The wakeup that thread t comes in with is not older than the thread's last row. */
  ghost predicate WakesLater(th: Threads, t: U32)
    requires th.InRange()
  {
    t in th.last && Taken(th, t).Some? ==> th.rows[th.last[t].row].ts <= Taken(th, t).value
  }

  lemma AdvancedOrdered(th: Threads, out: Threads, row: StateRow, t: U32)
    requires Tiles(th) && Advanced(th, out, row) && Ordered(th.rows, t)
    requires row.itid == t && t in th.last ==> th.rows[th.last[t].row].ts <= row.ts
    ensures Ordered(out.rows, t)
  {
    forall i, j | Neighbours(out.rows, i, j) && out.rows[i].itid == t ensures out.rows[i].ts <= out.rows[j].ts {
      NeighboursAdvanced(th, out, row, i, j);
    }
  }

  lemma CheckWakeupOrdered(th: Threads, t: U32, x: U32, now: U64)
    requires Tiles(th) && Ordered(th.rows, t) && Bounded(th, now) && (x == t ==> WakesLater(th, t))
    ensures Ordered(th.CheckWakeup(x).rows, t) && Bounded(th.CheckWakeup(x), now)
  {
    if x in th.runnable && th.StateOf(x) != TASK_RUNNING {
      var row := StateRow(th.runnable[x], INVALID_U64, INVALID_U32, x, TASK_RUNNABLE);
      AdvanceIsAdvanced(th, row);
      AdvancedOrdered(th, th.Advance(row), row, t);
    }
  }

  lemma AdvanceOrdered(th: Threads, row: StateRow, t: U32, now: U64)
    requires Tiles(th) && Ordered(th.rows, t) && Bounded(th, now) && now <= row.ts
    ensures Ordered(th.Advance(row).rows, t) && Bounded(th.Advance(row), row.ts)
  {
    AdvanceIsAdvanced(th, row);
    AdvancedOrdered(th, th.Advance(row), row, t);
  }

  lemma IncomingOrdered(th: Threads, e: Event, t: U32, now: U64)
    requires Tiles(th) && Ordered(th.rows, t) && Bounded(th, now) && e.Switch? && now <= e.ts
    requires t == e.next ==> WakesLater(th, t)
    ensures Ordered(Incoming(th, e.ts, e.cpu, e.next).rows, t) && Bounded(Incoming(th, e.ts, e.cpu, e.next), e.ts)
  {
    CheckWakeupTiles(th, e.next);
    CheckWakeupOrdered(th, t, e.next, now);
    AdvanceOrdered(th.CheckWakeup(e.next), StateRow(e.ts, INVALID_U64, e.cpu, e.next, TASK_RUNNING), t, now);
  }

  lemma SwitchInOrdered(th: Threads, a: Sched, rewound: set<U32>, e: Event, t: U32, now: U64)
    requires Followed(th, a, rewound) && Settles(a, rewound, e)
    requires Ordered(th.rows, t) && Bounded(th, now) && now <= e.ts && (t == e.next ==> WakesLater(th, t))
    ensures Ordered(th.SwitchIn(e).rows, t) && Bounded(th.SwitchIn(e), e.ts)
  {
    hide Abut, LastOpen, RunHeld, CpuHeld, Incoming, Ordered, Threads.ProcNext;
    if e.next != 0 {
      SwitchInKeeps(th, a, rewound, e);
      IncomingOrdered(th, e, t, now);
    }
  }

  lemma SwitchOutOrdered(mid: Threads, cfg: Config, e: Event, t: U32)
    requires Tiles(mid) && Ordered(mid.rows, t) && e.Switch? && Bounded(mid, e.ts)
    requires e.prev != 0 ==>
               mid.Leaves(cfg, e) && (e.prev in mid.last ==> mid.last[e.prev].state == TASK_RUNNING)
    ensures Ordered(mid.SwitchOut(cfg, e).rows, t) && Bounded(mid.SwitchOut(cfg, e), e.ts)
  {
    hide Abut, LastOpen, Ordered, Threads.ProcPrev, Threads.Advance;
    if e.prev != 0 {
      ProcPrevIsOutgoing(mid, e.ts, e.prev, e.prevState);
      AdvanceOrdered(mid, StateRow(e.ts, INVALID_U64, INVALID_U32, e.prev, e.prevState), t, e.ts);
    }
  }

  lemma SwitchOrdered(th: Threads, a: Sched, rewound: set<U32>, cfg: Config, e: Event, t: U32, now: U64)
    requires Followed(th, a, rewound) && Settles(a, rewound, e)
    requires Ordered(th.rows, t) && Bounded(th, now) && now <= e.ts && (t == e.next ==> WakesLater(th, t))
    ensures var out := th.SwitchIn(e).SwitchOut(cfg, e); Ordered(out.rows, t) && Bounded(out, e.ts)
  {
    hide Abut, LastOpen, RunHeld, CpuHeld, Incoming, Outgoing, Ordered, Bounded, Threads.SwitchIn, Threads.SwitchOut;
    SwitchHalves(th, a, rewound, cfg, e);
    SwitchInOrdered(th, a, rewound, e, t, now);
    SwitchOutOrdered(th.SwitchIn(e), cfg, e, t);
  }

  lemma OnlyLabelsOrdered(rows: seq<StateRow>, out: seq<StateRow>, t: U32)
    requires OnlyLabels(rows, out) && Ordered(rows, t)
    ensures Ordered(out, t)
  {
    forall i, j | Neighbours(out, i, j) && out[i].itid == t ensures out[i].ts <= out[j].ts {
      assert forall k | 0 <= k < |rows| :: out[k].itid == rows[k].itid;
      assert Neighbours(rows, i, j);
    }
  }

  /** Other events keep the order of the rows and pend no wakeup later than now. */
  lemma OtherInOrder(s: State, cfg: Config, e: Event, t: U32, now: U64, later: U64)
    requires s.InRange() && Ordered(s.threads.rows, t) && Bounded(s.threads, now) && !e.Switch?
    requires now <= later && (e.Wakeup? ==> later == e.ts)
    ensures Ordered(Step(s, cfg, e).threads.rows, t) && Bounded(Step(s, cfg, e).threads, later)
  {
    OtherRows(s, cfg, e);
    OnlyLabelsOrdered(s.threads.rows, Step(s, cfg, e).threads.rows, t);
    forall x: U32
      ensures var held := Held(Step(s, cfg, e).threads, x); held == Held(s.threads, x) || held == Some(later)
    {
      OtherHeld(s, cfg, e, x);
    }
    hide Step, Ordered;
  }

  // ---------- order ----------

  /** Thread t would come in with a stale wakeup from before the switch-out that kept it. */
  ghost predicate Early(events: seq<Event>, t: U32) {
    && StaleWake(events, t).Some? && Left(events, t).Some? && !LeftRunning(events, t)
    && StaleWake(events, t).value < Left(events, t).value.ts
  }

  /** Some switch-in of thread t used such a wakeup. */
  ghost predicate EverEarly(events: seq<Event>, t: U32) {
    events != [] &&
    var rest, e := events[..|events| - 1], events[|events| - 1];
    EverEarly(rest, t) || (e.Switch? && e.next == t && Early(rest, t))
  }

  /** Time does not go back, so a wakeup since the thread left is not earlier than that. */
  lemma {:induction false} FirstWakeAfterLeft(events: seq<Event>, t: U32)
    requires NonDecreasing(events)
    ensures Left(events, t).Some? ==> Left(events, t).value.ts <= Now(events)
    ensures Left(events, t).Some? && FirstWake(events, t).Some? ==>
              Left(events, t).value.ts <= FirstWake(events, t).value
  {
    if events != [] {
      FirstWakeAfterLeft(events[..|events| - 1], t);
    }
  }

  /** The wakeup that a waiting thread comes in with is not older than its last row, unless it is early. */
  lemma WakesOnTime(cfg: Config, events: seq<Event>, t: U32)
    requires Settled(events) && NonDecreasing(events) && t != 0 && t !in Abs(events).run && !Early(events, t)
    ensures WakesLater(Run(cfg, events).threads, t)
  {
    RunLeft(cfg, events, t);
    TakenIsRecorded(cfg, events, t);
    FirstWakeAfterLeft(events, t);
    hide Run, Abs, FirstWake, StaleWake, Left;
  }

  lemma {:induction false} RunInOrder(cfg: Config, events: seq<Event>, t: U32)
    requires Settled(events) && NonDecreasing(events) && t != 0 && !EverEarly(events, t)
    ensures Ordered(Run(cfg, events).threads.rows, t) && Bounded(Run(cfg, events).threads, Now(events))
  {
    if events != [] {
      var rest, e := events[..|events| - 1], events[|events| - 1];
      RunInOrder(cfg, rest, t);
      RunFollowed(cfg, rest);
      if e.Switch? && e.next == t {
        assert t !in Abs(rest).run;
        WakesOnTime(cfg, rest, t);
      }
      hide Followed, Ordered, Bounded, Tiles, WakesLater, Step, Early;
      if e.Switch? {
        SwitchOrdered(Run(cfg, rest).threads, Abs(rest), Rewound(rest), cfg, e, t, Now(rest));
        SwitchThreads(Run(cfg, rest), cfg, e);
      } else {
        OtherInOrder(Run(cfg, rest), cfg, e, t, Now(rest), Now(events));
      }
    }
  }

  // ---------- disorder ----------

  /** Rows are only appended, and keep their thread and start. */
  ghost predicate Grows(rows: seq<StateRow>, out: seq<StateRow>) {
    |rows| <= |out| && forall i | 0 <= i < |rows| :: out[i].itid == rows[i].itid && out[i].ts == rows[i].ts
  }

  lemma StepGrows(s: State, cfg: Config, e: Event)
    requires s.InRange()
    ensures Grows(s.threads.rows, Step(s, cfg, e).threads.rows)
  {
    hide Step, Threads.SwitchIn, Threads.SwitchOut;
    if e.Switch? {
      SwitchThreads(s, cfg, e);
      SwitchInRows(s.threads, e);
      SwitchOutRows(s.threads.SwitchIn(e), cfg, e);
    } else {
      OtherRows(s, cfg, e);
    }
  }

  lemma GrowsOrdered(rows: seq<StateRow>, out: seq<StateRow>, t: U32)
    requires Grows(rows, out) && Ordered(out, t)
    ensures Ordered(rows, t)
  {
    forall i, j | Neighbours(rows, i, j) && rows[i].itid == t ensures rows[i].ts <= rows[j].ts {
      assert Neighbours(out, i, j);
    }
  }

  /** Using an early wakeup starts a row before the one it follows. */
  lemma EarlyDisorders(cfg: Config, events: seq<Event>, e: Event)
    requires Settled(events + [e]) && e.Switch? && e.next != 0 && Early(events, e.next)
    ensures !Ordered(Run(cfg, events + [e]).threads.rows, e.next)
  {
    var t, th, out := e.next, Run(cfg, events).threads, Run(cfg, events + [e]).threads.rows;
    SettledSnoc(events, e);
    RowsTile(cfg, events);
    RunLeft(cfg, events, t);
    SwitchInRecordsPending(cfg, events, e);
    hide Run, Abs, StaleWake, FirstWake, Left, Abut;
    var r := th.last[t].row;
    assert Neighbours(out, r, |th.rows|);
  }

  /** With nondecreasing timestamps, the rows of a thread start in order if and only if none of its switch-ins used a
    * stale wakeup from before the switch-out that kept it. */
  lemma {:induction false} OrderedExactly(cfg: Config, events: seq<Event>, t: U32)
    requires Settled(events) && NonDecreasing(events) && t != 0
    ensures Ordered(Run(cfg, events).threads.rows, t) <==> !EverEarly(events, t)
  {
    if EverEarly(events, t) {
      var rest, e := events[..|events| - 1], events[|events| - 1];
      OrderedExactly(cfg, rest, t);
      assert rest + [e] == events;
      hide Ordered, Step, Early, Possible;
      StepGrows(Run(cfg, rest), cfg, e);
      if Ordered(Run(cfg, events).threads.rows, t) {
        GrowsOrdered(Run(cfg, rest).threads.rows, Run(cfg, events).threads.rows, t);
      }
      if e.Switch? && e.next == t && Early(rest, t) {
        EarlyDisorders(cfg, rest, e);
      }
    } else {
      RunInOrder(cfg, events, t);
    }
  }

  /** Every closed row of thread t lasts from its start to the start of the thread's next row, which is not earlier. */
  ghost predicate NotNegative(rows: seq<StateRow>, t: U32) {
    forall i, j | Neighbours(rows, i, j) && rows[i].itid == t ::
      rows[i].ts <= rows[j].ts && rows[i].dur == rows[j].ts - rows[i].ts
  }

  /** With nondecreasing timestamps, the exact condition for a thread's durations never to be negative. */
  lemma DurationsNotNegative(cfg: Config, events: seq<Event>, t: U32)
    requires Settled(events) && NonDecreasing(events) && t != 0
    ensures NotNegative(Run(cfg, events).threads.rows, t) <==> !EverEarly(events, t)
  {
    OrderedExactly(cfg, events, t);
    RowsTile(cfg, events);
    hide Run;
  }

  lemma {:induction false} EarlyIsStale(events: seq<Event>, t: U32)
    requires EverEarly(events, t)
    ensures EverStale(events, t)
  {
    var rest := events[..|events| - 1];
    if EverEarly(rest, t) { EarlyIsStale(rest, t); }
  }

  /** A thread first met when it is switched in is never stale. */
  lemma {:induction false} FirstSwitchedInIsNeverStale(events: seq<Event>, t: U32)
    requires forall k | 0 <= k < |events| && events[k].Switch? && events[k].prev == t :: t in Abs(events[..k]).seen
    ensures !EverStale(events, t) && !EverEarly(events, t)
  {
    if EverEarly(events, t) { EarlyIsStale(events, t); }
    if events != [] {
      var n := |events| - 1;
      forall k | 0 <= k < n && events[..n][k].Switch? && events[..n][k].prev == t
        ensures t in Abs(events[..n][..k]).seen
      {
        assert events[..n][..k] == events[..k];
      }
      FirstSwitchedInIsNeverStale(events[..n], t);
    }
  }
}
