/** Which wakeup, if any, becomes the RUNNABLE row of a thread that is switched in. */
module CpuWakeups {
  import opened MachineWords
  import opened CpuFilter
  import opened CpuSchedule
  import opened CpuTimeline

  /** The first sched_wakeup of thread t since it last stopped running (or since the trace began). */
  function FirstWake(events: seq<Event>, t: U32): Option<U64> {
    if events == [] then None else NextFirst(FirstWake(events[..|events| - 1], t), events[|events| - 1], t)
  }

  function NextFirst(first: Option<U64>, e: Event, t: U32): Option<U64> {
    if e.Switch? && e.prev == t then None
    else if e.Wakeup? && e.itid == t && !e.isWaking && first.None? then Some(e.ts)
    else first
  }

  /**
   * A wakeup that the filter holds over from before a thread stopped running: the thread was woken,
   * and then first met when it was switched out. It is used up when the thread is next switched in.
   */
  function StaleWake(events: seq<Event>, t: U32): Option<U64> {
    if events == [] then None
    else
      var rest, e := events[..|events| - 1], events[|events| - 1];
      if e.Switch? && e.next == t then None
      else if e.Switch? && e.prev == t && t !in Abs(rest).seen then FirstWake(rest, t)
      else StaleWake(rest, t)
  }

  /** The wakeup the filter will act on when it next switches thread t in. */
  function Pending(events: seq<Event>, t: U32): Option<U64> {
    if StaleWake(events, t).Some? then StaleWake(events, t) else FirstWake(events, t)
  }

  function Held(th: Threads, t: U32): Option<U64> {
    if t in th.runnable then Some(th.runnable[t]) else None
  }

  lemma SwitchInHeld(th: Threads, e: Event, t: U32)
    requires th.InRange() && e.Switch? && t != 0
    ensures Held(th.SwitchIn(e), t) == if t == e.next then None else Held(th, t)
  {
    hide Threads.CheckWakeup, Threads.Advance, Threads.Evicts;
    if e.next != 0 {
      var woken := th.CheckWakeup(e.next);
      CheckWakeupHeld(th, e.next, t);
      AdvanceIsAdvanced(woken, StateRow(e.ts, INVALID_U64, e.cpu, e.next, TASK_RUNNING));
    }
  }

  lemma CheckWakeupHeld(th: Threads, x: U32, t: U32)
    requires th.InRange()
    ensures Held(th.CheckWakeup(x), t) == if t == x then None else Held(th, t)
  {
  }

  lemma SwitchOutHeld(th: Threads, cfg: Config, e: Event, t: U32)
    requires th.InRange() && e.Switch? && t != 0 && (e.prev != 0 ==> th.Leaves(cfg, e))
    ensures Held(th.SwitchOut(cfg, e), t) == if t == e.prev && t in th.last then None else Held(th, t)
  {
  }

  /** A switch uses up the wakeups of the incoming thread and, if it was running, of the outgoing one. */
  lemma SwitchHeld(th: Threads, a: Sched, rewound: set<U32>, cfg: Config, e: Event, t: U32)
    requires Followed(th, a, rewound) && Settles(a, rewound, e) && t != 0
    ensures Held(th.SwitchIn(e).SwitchOut(cfg, e), t) ==
            if t == e.next || (t == e.prev && e.cpu in a.cur) then None else Held(th, t)
    ensures t == e.prev ==> (e.cpu in a.cur <==> t in a.run) && (e.cpu in a.cur <==> t in a.seen)
  {
    hide Abut, LastOpen, RunHeld, CpuHeld, Incoming, Outgoing, Held, Threads.SwitchIn, Threads.SwitchOut;
    SwitchHalves(th, a, rewound, cfg, e);
    SwitchInHeld(th, e, t);
    SwitchOutHeld(th.SwitchIn(e), cfg, e, t);
  }

  lemma OtherHeld(s: State, cfg: Config, e: Event, t: U32)
    requires s.InRange() && !e.Switch?
    ensures Held(Step(s, cfg, e).threads, t) ==
            if e.Wakeup? && e.itid == t && !e.isWaking && Held(s.threads, t).None? then Some(e.ts)
              else Held(s.threads, t)
  {
  }

  lemma HeldStep(s: State, a: Sched, rewound: set<U32>, cfg: Config, e: Event, t: U32, pending: Option<U64>)
    requires s.InRange() && Followed(s.threads, a, rewound) && (e.Switch? ==> Settles(a, rewound, e)) && t != 0
    requires t !in a.run ==> Held(s.threads, t) == pending
    requires t !in AbsStep(a, e).run
    ensures Held(Step(s, cfg, e).threads, t) ==
            if e.Switch? then (if t == e.next || (t == e.prev && t in a.seen) then None else pending)
            else NextFirst(pending, e, t)
  {
    if e.Switch? {
      assert t in a.run ==> t == e.prev;
      hide *;
      SwitchHeld(s.threads, a, rewound, cfg, e, t);
      SwitchThreads(s, cfg, e);
    } else {
      OtherHeld(s, cfg, e, t);
    }
  }

  lemma {:induction false} StaleWaits(events: seq<Event>, t: U32)
    requires PossibleRun(events) && t != 0
    ensures StaleWake(events, t).Some? ==> t in Abs(events).seen && t !in Abs(events).run
    ensures t in Abs(events).run ==> t in Abs(events).seen
  {
    if events != [] {
      StaleWaits(events[..|events| - 1], t);
    }
  }

  lemma PendingStep(events: seq<Event>, e: Event, t: U32)
    requires PossibleRun(events) && Possible(Abs(events), e) && Mirrors(Abs(events)) && t != 0
    requires t !in AbsStep(Abs(events), e).run
    ensures Pending(events + [e], t) ==
            if e.Switch? then (if t == e.next || (t == e.prev && t in Abs(events).seen) then None
              else Pending(events, t))
            else NextFirst(Pending(events, t), e, t)
  {
    StaleWaits(events, t);
    assert (events + [e])[..|events|] == events;
  }

  lemma {:induction false} SettledIsPossible(events: seq<Event>)
    requires Settled(events)
    ensures PossibleRun(events)
  {
    if events != [] { SettledIsPossible(events[..|events| - 1]); }
  }

  lemma HeldAfter(cfg: Config, events: seq<Event>, e: Event, t: U32)
    requires Settled(events) && Possible(Abs(events), e) && t != 0
    requires e.Switch? ==> Settles(Abs(events), Rewound(events), e)
    requires t !in Abs(events).run ==> Held(Run(cfg, events).threads, t) == Pending(events, t)
    requires t !in AbsStep(Abs(events), e).run
    ensures Held(Step(Run(cfg, events), cfg, e).threads, t) == Pending(events + [e], t)
  {
    hide Run, Abs, Rewound, Settled, Settles, Possible, PossibleRun, Followed, Held, Pending, Step, AbsStep, Mirrors;
    RunFollowed(cfg, events);
    FollowedParts(Run(cfg, events).threads, Abs(events), Rewound(events));
    SettledIsPossible(events);
    PendingStep(events, e, t);
    HeldStep(Run(cfg, events), Abs(events), Rewound(events), cfg, e, t, Pending(events, t));
  }

  /** Whenever a thread is not running, the filter holds exactly its pending wakeup. */
  lemma {:induction false} HeldIsPending(cfg: Config, events: seq<Event>, t: U32)
    requires Settled(events) && t != 0
    ensures t !in Abs(events).run ==> Held(Run(cfg, events).threads, t) == Pending(events, t)
  {
    if events != [] {
      hide Possible, Held, Pending, Step, AbsStep;
      var rest, e := events[..|events| - 1], events[|events| - 1];
      HeldIsPending(cfg, rest, t);
      assert rest + [e] == events;
      if t !in Abs(events).run {
        HeldAfter(cfg, rest, e, t);
      }
    }
  }

  // ---------- how a thread left ----------

  /** A switch-out: when it was, and the state that the thread left in. */
  datatype Leave = Leave(ts: U64, state: TaskState)

  /** The last switch-out of thread t. */
  function Left(events: seq<Event>, t: U32): Option<Leave> {
    if events == [] then None
    else
      var e := events[|events| - 1];
      if e.Switch? && e.prev == t then Some(Leave(e.ts, e.prevState)) else Left(events[..|events| - 1], t)
  }

  /** The last row of a waiting thread starts when the thread left, in the state that it left in. */
  ghost predicate LeftRow(th: Threads, left: Option<Leave>, t: U32)
    requires th.InRange()
  {
    && (t in th.last <==> left.Some?)
    && (t in th.last ==> Leave(th.rows[th.last[t].row].ts, th.last[t].state) == left.value)
  }

  lemma TouchLeft(th: Threads, out: Threads, x: U32, t: U32, left: Option<Leave>)
    requires th.InRange() && out.InRange() && Touches(th, out, x) && t != x && LeftRow(th, left, t)
    ensures LeftRow(out, left, t)
  {
  }

  lemma SwitchInLeft(th: Threads, a: Sched, rewound: set<U32>, cfg: Config, e: Event, t: U32, left: Option<Leave>)
    requires Followed(th, a, rewound) && Settles(a, rewound, e) && t != e.next && LeftRow(th, left, t)
    ensures LeftRow(th.SwitchIn(e), left, t)
  {
    hide Abut, LastOpen, RunHeld, CpuHeld, Incoming, Outgoing, Threads.SwitchIn, Threads.SwitchOut, Touches;
    SwitchHalves(th, a, rewound, cfg, e);
    if e.next != 0 {
      IncomingTiles(th, e.ts, e.cpu, e.next);
      IncomingTouches(th, e.ts, e.cpu, e.next);
      TouchLeft(th, Incoming(th, e.ts, e.cpu, e.next), e.next, t, left);
    }
  }

  lemma SwitchSpares(th: Threads, a: Sched, rewound: set<U32>, cfg: Config, e: Event, t: U32, left: Option<Leave>)
    requires Followed(th, a, rewound) && Settles(a, rewound, e) && t != e.next && t != e.prev && LeftRow(th, left, t)
    ensures LeftRow(th.SwitchIn(e).SwitchOut(cfg, e), left, t)
  {
    hide Abut, LastOpen, RunHeld, CpuHeld, Incoming, Threads.SwitchIn, Threads.SwitchOut, Threads.Advance, Touches;
    SwitchHalves(th, a, rewound, cfg, e);
    var mid, row := th.SwitchIn(e), StateRow(e.ts, INVALID_U64, INVALID_U32, e.prev, e.prevState);
    SwitchInLeft(th, a, rewound, cfg, e, t, left);
    AdvanceIsAdvanced(mid, row);
    AdvancedTouches(mid, mid.Advance(row), row);
    TouchLeft(mid, mid.Advance(row), e.prev, t, left);
  }

  lemma LeavingRow(th: Threads, a: Sched, rewound: set<U32>, cfg: Config, e: Event)
    requires Followed(th, a, rewound) && Settles(a, rewound, e) && e.prev != 0
    ensures LeftRow(th.SwitchIn(e).SwitchOut(cfg, e), Some(Leave(e.ts, e.prevState)), e.prev)
  {
    hide Abut, LastOpen, RunHeld, CpuHeld, Incoming, Threads.SwitchIn, Threads.SwitchOut, Threads.Advance;
    SwitchHalves(th, a, rewound, cfg, e);
    AdvanceIsAdvanced(th.SwitchIn(e), StateRow(e.ts, INVALID_U64, INVALID_U32, e.prev, e.prevState));
  }

  lemma SwitchLeft(th: Threads, a: Sched, rewound: set<U32>, cfg: Config, e: Event, t: U32, left: Option<Leave>)
    requires Followed(th, a, rewound) && Settles(a, rewound, e) && t != 0 && t !in AbsStep(a, e).run
    requires t !in a.run ==> LeftRow(th, left, t)
    ensures LeftRow(th.SwitchIn(e).SwitchOut(cfg, e), if e.prev == t then Some(Leave(e.ts, e.prevState)) else left, t)
  {
    hide Abut, LastOpen, RunHeld, CpuHeld, LeftRow, Threads.SwitchIn, Threads.SwitchOut;
    if t == e.prev {
      LeavingRow(th, a, rewound, cfg, e);
    } else {
      assert t != e.next && t !in a.run;
      SwitchSpares(th, a, rewound, cfg, e, t, left);
    }
  }

  lemma OtherLeft(s: State, a: Sched, cfg: Config, e: Event, t: U32, left: Option<Leave>)
    requires s.InRange() && !e.Switch?
    ensures AbsStep(a, e) == a && (LeftRow(s.threads, left, t) ==> LeftRow(Step(s, cfg, e).threads, left, t))
  {
    hide Step;
    OtherRows(s, cfg, e);
  }

  /** Whenever a thread is not running, its last row, if it has any, is that of its last switch-out. */
  lemma {:induction false} RunLeft(cfg: Config, events: seq<Event>, t: U32)
    requires Settled(events) && t != 0
    ensures t !in Abs(events).run ==> LeftRow(Run(cfg, events).threads, Left(events, t), t)
  {
    if events != [] {
      var rest, e := events[..|events| - 1], events[|events| - 1];
      RunLeft(cfg, rest, t);
      RunFollowed(cfg, rest);
      hide Followed, LeftRow, Step, AbsStep, Possible;
      if t !in Abs(events).run {
        if e.Switch? {
          SwitchThreads(Run(cfg, rest), cfg, e);
          SwitchLeft(Run(cfg, rest).threads, Abs(rest), Rewound(rest), cfg, e, t, Left(rest, t));
        } else {
          OtherLeft(Run(cfg, rest), Abs(rest), cfg, e, t, Left(rest, t));
        }
      }
    }
  }

  // ---------- the rows of a switch-in ----------

  /** Thread t was switched out in TASK_RUNNING, so the filter takes it for running until it is switched in. */
  predicate LeftRunning(events: seq<Event>, t: U32) {
    Left(events, t).Some? && Left(events, t).value.state == TASK_RUNNING
  }

  /** The wakeup that the next switch-in of thread t records: the pending one, but none if it left running. */
  function Recorded(events: seq<Event>, t: U32): Option<U64> {
    if LeftRunning(events, t) then None else Pending(events, t)
  }

  /** The wakeup that the filter turns into a row when it switches thread t in. */
  function Taken(th: Threads, t: U32): Option<U64>
    requires th.InRange()
  {
    if th.StateOf(t) == TASK_RUNNING then None else Held(th, t)
  }

  lemma TakenIsRecorded(cfg: Config, events: seq<Event>, t: U32)
    requires Settled(events) && t != 0 && t !in Abs(events).run
    ensures Taken(Run(cfg, events).threads, t) == Recorded(events, t)
  {
    HeldIsPending(cfg, events, t);
    RunLeft(cfg, events, t);
  }

  /** The rows from n on are those of a switch-in whose wakeup, if any, was at `wake`. */
  ghost predicate SwitchedIn(rows: seq<StateRow>, n: nat, wake: Option<U64>, e: Event)
    requires e.Switch?
  {
    match wake
    case None =>
      n < |rows| && rows[n] == StateRow(e.ts, INVALID_U64, e.cpu, e.next, TASK_RUNNING)
    case Some(w) =>
      n + 1 < |rows| && rows[n] == StateRow(w, Sub64(e.ts, w), INVALID_U32, e.next, TASK_RUNNABLE)
      && rows[n + 1] == StateRow(e.ts, INVALID_U64, e.cpu, e.next, TASK_RUNNING)
  }

  lemma IncomingRows(th: Threads, e: Event)
    requires th.InRange() && e.Switch?
    ensures var rows := Incoming(th, e.ts, e.cpu, e.next).rows;
            SwitchedIn(rows, |th.rows|, Taken(th, e.next), e) && OnlyDurations(th.rows, rows)
            && |rows| == |th.rows| + if Taken(th, e.next).Some? then 2 else 1
  {
    hide Threads.Advance;
    var woken := th.CheckWakeup(e.next);
    AdvanceIsAdvanced(woken, StateRow(e.ts, INVALID_U64, e.cpu, e.next, TASK_RUNNING));
    if Taken(th, e.next).Some? {
      AdvanceIsAdvanced(th, StateRow(th.runnable[e.next], INVALID_U64, INVALID_U32, e.next, TASK_RUNNABLE));
    }
  }

  lemma OutgoingKeeps(th: Threads, e: Event, n: nat, wake: Option<U64>)
    requires th.InRange() && e.Switch? && e.prev != e.next && SwitchedIn(th.rows, n, wake, e)
    requires forall t <- th.last :: th.rows[th.last[t].row].itid == t
    ensures SwitchedIn(Outgoing(th, e.ts, e.prev, e.prevState).rows, n, wake, e)
  {
  }

  /** How many rows a switch appends: one for a wakeup, one for each of its threads. */
  function RowsAdded(wake: Option<U64>, e: Event): nat
    requires e.Switch?
  {
    (if e.next == 0 then 0 else if wake.Some? then 2 else 1) + (if e.prev == 0 then 0 else 1)
  }

  lemma SwitchRows(th: Threads, a: Sched, rewound: set<U32>, cfg: Config, e: Event)
    requires Followed(th, a, rewound) && Settles(a, rewound, e) && e.next != 0
    ensures var rows := th.SwitchIn(e).SwitchOut(cfg, e).rows;
            && SwitchedIn(rows, |th.rows|, Taken(th, e.next), e) && OnlyDurations(th.rows, rows)
            && |rows| == |th.rows| + RowsAdded(Taken(th, e.next), e)
  {
    hide Abut, RunHeld, CpuHeld, Incoming, Threads.SwitchIn, Threads.SwitchOut, Taken;
    SwitchHalves(th, a, rewound, cfg, e);
    IncomingRows(th, e);
    var mid := th.SwitchIn(e);
    if e.prev != 0 {
      OutgoingKeeps(mid, e, |th.rows|, Taken(th, e.next));
      SwitchOutRows(mid, cfg, e);
    }
  }

  /**
   * Every switch-in of a settled run records the thread's pending wakeup, unless the thread had left in
   * TASK_RUNNING, and nothing else: the only other new row is the outgoing thread's, and of the old rows only
   * durations change.
   */
  lemma SwitchInRecordsPending(cfg: Config, events: seq<Event>, e: Event)
    requires Settled(events + [e]) && e.Switch? && e.next != 0
    ensures var rows, out := Run(cfg, events).threads.rows, Run(cfg, events + [e]).threads.rows;
            && SwitchedIn(out, |rows|, Recorded(events, e.next), e)
            && |out| == |rows| + RowsAdded(Recorded(events, e.next), e) && OnlyDurations(rows, out)
  {
    assert (events + [e])[..|events|] == events;
    SettledSnoc(events, e);
    RunFollowed(cfg, events);
    TakenIsRecorded(cfg, events, e.next);
    hide Followed, Step, Threads.SwitchIn, Threads.SwitchOut, SwitchedIn, Recorded, Taken;
    SwitchRows(Run(cfg, events).threads, Abs(events), Rewound(events), cfg, e);
    SwitchThreads(Run(cfg, events), cfg, e);
  }

  /**
   * The RUNNABLE row of a switched-in thread starts at its first sched_wakeup since it stopped running (and is
   * absent if there was none), exactly when no stale wakeup stands in the way, or, for a thread that left in
   * TASK_RUNNING, exactly when there was no such wakeup.
   */
  lemma RunnableStartsAtFirstWake(cfg: Config, events: seq<Event>, e: Event)
    requires Settled(events + [e]) && e.Switch? && e.next != 0
    ensures SwitchedIn(Run(cfg, events + [e]).threads.rows, |Run(cfg, events).threads.rows|,
                       FirstWake(events, e.next), e)
            <==> if LeftRunning(events, e.next) then FirstWake(events, e.next).None?
                 else StaleWake(events, e.next).None? || StaleWake(events, e.next) == FirstWake(events, e.next)
  {
    SwitchInRecordsPending(cfg, events, e);
    hide Run;
  }
}
