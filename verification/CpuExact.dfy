/** Exactly which schedules the scheduler tables describe: the conditions of Allowed cannot be weakened. */
module CpuExact {
  import opened MachineWords
  import opened CpuFilter
  import opened CpuSchedule
  import opened CpuAgreement
  import opened CpuTimeline
  import opened CpuWakeups

  /** The tables and the outgoing thread after the first half of a switch. */
  lemma HalfWay(th: Threads, a: Sched, cfg: Config, e: Event)
    requires ThreadsOk(th, a.run) && Mirrors(a) && 0 !in a.seen && th.last.Keys <= a.seen
    requires e.Switch? && Possible(a, e) && e.prev != 0
    ensures var mid := th.SwitchIn(e);
            && mid.InRange() && mid.Leaves(cfg, e)
            && (e.cpu in a.cur ==>
                  && e.prev in mid.last && mid.last[e.prev].state == TASK_RUNNING
                  && mid.rows[mid.last[e.prev].row]
                       == StateRow(a.cur[e.cpu].since, INVALID_U64, e.cpu, e.prev, TASK_RUNNING))
  {
    if e.next != 0 {
      assert forall t <- a.run :: a.run[t].cpu == e.cpu ==> t == e.prev;
      hide Mirrors;
      ProcNextOk(th, a.run, e.ts, e.cpu, e.prev, e.next);
      ProcNextIsIncoming(th, a.run, e.ts, e.cpu, e.prev, e.next);
      IncomingOthers(th, e.ts, e.cpu, e.next);
    }
  }

  /** Closing a row one tick before its start leaves it looking open. */
  lemma StaysOpen(th: Threads, cfg: Config, e: Event)
    requires th.InRange() && e.Switch? && th.Leaves(cfg, e) && e.prev in th.last
             && th.last[e.prev].state == TASK_RUNNING
    requires th.rows[th.last[e.prev].row].dur == INVALID_U64
    requires Sub64(e.ts, th.rows[th.last[e.prev].row].ts) == INVALID_U64
    ensures var r, out := th.last[e.prev].row, th.SwitchOut(cfg, e).rows; r < |out| && out[r] == th.rows[r]
  {
  }

  /** After a switch no cpu runs the outgoing thread. */
  lemma GoneFromCpus(a: Sched, e: Event)
    requires Mirrors(a) && 0 !in a.seen && e.Switch? && Possible(a, e) && e.prev != 0
    ensures forall c <- AbsStep(a, e).cur :: AbsStep(a, e).cur[c].itid != e.prev
  {
  }

  /** A possible switch that is not allowed makes the tables disagree at once. */
  lemma Disagrees(s: State, a: Sched, cfg: Config, e: Event)
    requires Agree(s, a) && Possible(a, e) && !Allowed(a, e)
    ensures !Same(Step(s, cfg, e), AbsStep(a, e))
  {
    hide Paired, SlicesOk, Labels, OpenRuns, RestWaits, RunRemembered, NotedWaits, Project;
    HalfWay(s.threads, a, cfg, e);
    SwitchThreads(s, cfg, e);
    GoneFromCpus(a, e);
    var mid := s.threads.SwitchIn(e);
    var out := mid.SwitchOut(cfg, e);
    SwitchOutRows(mid, cfg, e);
    if e.prevState == TASK_RUNNING {
      assert OpenRunning(out.rows[|out.rows| - 1]);
    } else {
      StaysOpen(mid, cfg, e);
      assert OpenRunning(out.rows[mid.last[e.prev].row]);
    }
  }

  ghost predicate AgreesAfter(cfg: Config, events: seq<Event>, k: nat)
    requires k <= |events|
  {
    Same(Run(cfg, events[..k]), Abs(events[..k]))
  }

  /** Whether the tables agree after the last event of a run that was consistent before it. */
  lemma LastAgrees(cfg: Config, events: seq<Event>)
    requires events != [] && Consistent(events[..|events| - 1])
    requires Possible(Abs(events[..|events| - 1]), events[|events| - 1])
    ensures Same(Run(cfg, events), Abs(events)) <==> Consistent(events)
  {
    hide Same, Agree, Step, AbsStep, Allowed, Possible;
    var n := |events| - 1;
    if Consistent(events) {
      TablesAgree(cfg, events);
    } else {
      RunAgrees(cfg, events[..n]);
      Disagrees(Run(cfg, events[..n]), Abs(events[..n]), cfg, events[n]);
    }
  }

  /** Over a possible run the tables agree at every moment if and only if every switch is allowed. */
  lemma {:induction false} AgreeThroughout(cfg: Config, events: seq<Event>)
    requires PossibleRun(events)
    ensures (forall k | 0 <= k <= |events| :: AgreesAfter(cfg, events, k)) <==> Consistent(events)
    decreases |events|
  {
    hide Same, Run, Abs, Allowed, Possible;
    assert events[..|events|] == events;
    if events == [] {
      TablesAgree(cfg, events);
    } else {
      var n := |events| - 1;
      var front := events[..n];
      AgreeThroughout(cfg, front);
      forall k | 0 <= k <= n ensures AgreesAfter(cfg, front, k) == AgreesAfter(cfg, events, k) {
        assert front[..k] == events[..k];
      }
      if Consistent(front) {
        LastAgrees(cfg, events);
        assert AgreesAfter(cfg, events, n + 1) <==> Consistent(events);
        assert forall k | 0 <= k <= n :: AgreesAfter(cfg, front, k);
      } else {
        var k :| 0 <= k <= n && !AgreesAfter(cfg, front, k);
        assert !AgreesAfter(cfg, events, k);
      }
    }
  }

  // ---------- concrete inputs ----------

  lemma RunSnoc(cfg: Config, events: seq<Event>, e: Event)
    ensures Run(cfg, events + [e]) == Step(Run(cfg, events), cfg, e) && Abs(events + [e]) == AbsStep(Abs(events), e)
    ensures Consistent(events + [e]) <==> Consistent(events) && Allowed(Abs(events), e)
  {
    assert (events + [e])[..|events|] == events;
  }

  /** Thread 5 runs on cpu 0 from 10 and is said to leave at 9: the tables disagree. */
  lemma RewindDisagrees(cfg: Config)
    ensures var s := Run(cfg, [Switch(10, 0, 0, 0, 5, 0)] + [Switch(9, 0, 5, 1, 0, 0)]);
            !Same(s, Abs([Switch(10, 0, 0, 0, 5, 0)] + [Switch(9, 0, 5, 1, 0, 0)]))
  {
    hide Run, Same, Agree, Step;
    var first, second := Switch(10, 0, 0, 0, 5, 0), Switch(9, 0, 5, 1, 0, 0);
    assert [] + [first] == [first];
    RunSnoc(cfg, [], first);
    RunSnoc(cfg, [first], second);
    assert Abs([first]) == AbsStep(START, first);
    hide Abs, Consistent;
    RunAgrees(cfg, [first]);
    Disagrees(Run(cfg, [first]), Abs([first]), cfg, second);
  }

  /** When thread 6 then comes in on the idle cpu, thread 5 is forgotten and its rows no longer tile. */
  lemma RewindEvicts(cfg: Config)
    ensures var events := [Switch(10, 0, 0, 0, 5, 0)] + [Switch(9, 0, 5, 1, 0, 0)];
            && Incoming(Run(cfg, events).threads, 20, 0, 6).Evicts(0, 0)
            && !Tiles(Run(cfg, events + [Switch(20, 0, 0, 0, 6, 0)]).threads)
  {
    hide Run, Step, Incoming, Threads.Evicts, Tiles;
    var first, second, third := Switch(10, 0, 0, 0, 5, 0), Switch(9, 0, 5, 1, 0, 0), Switch(20, 0, 0, 0, 6, 0);
    assert [] + [first] == [first];
    RunSnoc(cfg, [], first);
    SettledSnoc([], first);
    RunSnoc(cfg, [first], second);
    SettledSnoc([first], second);
    var events := [first] + [second];
    assert Abs([first]) == AbsStep(START, first) && Rewound([first]) == {};
    assert Abs(events) == AbsStep(AbsStep(START, first), second) && 0 in Rewound(events);
    SettledSnoc(events, third);
    assert (events + [third])[..2] == events;
    hide Abs, Rewound, Settled;
    EvictsExactly(cfg, events, third);
    LastSettles(cfg, events + [third]);
    assert (events + [third])[..3] == events + [third];
  }

  /** Thread 7 is woken at 5, first met when it is switched out at 10, and switched in at 20: its waiting row gets a
    * duration of minus five and its RUNNABLE row starts before it stopped running. */
  lemma StaleWakeRewinds(cfg: Config)
    ensures Run(cfg, [Wakeup(5, 7, false)] + [Switch(10, 0, 7, 1, 0, 0)] + [Switch(20, 0, 0, 0, 7, 0)]).threads.rows
         == [StateRow(10, TWO64 - 5, INVALID_U32, 7, 1), StateRow(5, 15, INVALID_U32, 7, TASK_RUNNABLE),
             StateRow(20, INVALID_U64, 0, 7, TASK_RUNNING)]
  {
    hide Run, Step;
    var wake, out, back := Wakeup(5, 7, false), Switch(10, 0, 7, 1, 0, 0), Switch(20, 0, 0, 0, 7, 0);
    assert [] + [wake] == [wake];
    RunSnoc(cfg, [], wake);
    RunSnoc(cfg, [wake], out);
    RunSnoc(cfg, [wake] + [out], back);
    var s1 := Step(Run(cfg, []), cfg, wake);
    WokenUnmet(cfg);
    SwitchThreads(s1, cfg, out);
    FirstMetLeaving(cfg);
    SwitchThreads(Step(s1, cfg, out), cfg, back);
    ComesBack(cfg);
  }

  lemma WokenUnmet(cfg: Config)
    ensures Step(Run(cfg, []), cfg, Wakeup(5, 7, false)).threads == Threads([], map[], map[], map[7 := 5], map[])
  {
  }

  lemma FirstMetLeaving(cfg: Config)
    ensures var th := Threads([], map[], map[], map[7 := 5], map[]);
            var out := Switch(10, 0, 7, 1, 0, 0);
            th.SwitchIn(out).SwitchOut(cfg, out) ==
            Threads([StateRow(10, INVALID_U64, INVALID_U32, 7, 1)], map[], map[7 := Remembered(0, 1)],
                    map[7 := 5], map[])
  {
    var none: map<U32, nat> := map[];
    assert none - {7} == none;
  }

  lemma ComesBack(cfg: Config)
    ensures var th := Threads([StateRow(10, INVALID_U64, INVALID_U32, 7, 1)], map[], map[7 := Remembered(0, 1)],
                              map[7 := 5], map[]);
            var back := Switch(20, 0, 0, 0, 7, 0);
            th.InRange() && th.SwitchIn(back).SwitchOut(cfg, back).rows ==
            [StateRow(10, TWO64 - 5, INVALID_U32, 7, 1), StateRow(5, 15, INVALID_U32, 7, TASK_RUNNABLE),
             StateRow(20, INVALID_U64, 0, 7, TASK_RUNNING)]
  {
    var th := Threads([StateRow(10, INVALID_U64, INVALID_U32, 7, 1)], map[], map[7 := Remembered(0, 1)],
                      map[7 := 5], map[]);
    assert th.CheckWakeup(7).rows
        == [StateRow(10, TWO64 - 5, INVALID_U32, 7, 1), StateRow(5, INVALID_U64, INVALID_U32, 7, TASK_RUNNABLE)];
  }

  /** Thread 5 comes in at 10, leaves at 12 in TASK_RUNNING, is woken at 15 and comes in at 20: no stale wakeup stands
    * in the way, yet it gets no RUNNABLE row. */
  lemma RunningLeaverLosesWake(cfg: Config)
    ensures var events := [Switch(10, 0, 0, 0, 5, 0)] + [Switch(12, 0, 5, TASK_RUNNING, 0, 0)] + [Wakeup(15, 5, false)];
            var back := Switch(20, 0, 0, 0, 5, 0);
            && Settled(events + [back]) && StaleWake(events, 5).None? && FirstWake(events, 5) == Some(15)
            && Run(cfg, events + [back]).threads.rows
               == [StateRow(10, 2, 0, 5, TASK_RUNNING), StateRow(12, 8, INVALID_U32, 5, TASK_RUNNING),
                   StateRow(20, INVALID_U64, 0, 5, TASK_RUNNING)]
  {
    hide Run, Step, Settled, StaleWake, FirstWake;
    var first, out := Switch(10, 0, 0, 0, 5, 0), Switch(12, 0, 5, TASK_RUNNING, 0, 0);
    var wake, back := Wakeup(15, 5, false), Switch(20, 0, 0, 0, 5, 0);
    LeaverSettles(cfg, first, out, wake, back);
    LeaverWakes(first, out, wake);
    assert [] + [first] == [first];
    RunSnoc(cfg, [], first);
    RunSnoc(cfg, [first], out);
    RunSnoc(cfg, [first] + [out], wake);
    RunSnoc(cfg, [first] + [out] + [wake], back);
    var s0 := Run(cfg, []);
    NothingYet(cfg);
    SwitchThreads(s0, cfg, first);
    ComesIn(cfg, first);
    var s1 := Step(s0, cfg, first);
    SwitchThreads(s1, cfg, out);
    LeavesRunning(cfg, out);
    var s2 := Step(s1, cfg, out);
    WokenWaiting(s2, cfg, wake);
    SwitchThreads(Step(s2, cfg, wake), cfg, back);
    ComesBackUnwoken(cfg, back);
  }

  lemma LeaverSettles(cfg: Config, first: Event, out: Event, wake: Event, back: Event)
    requires first == Switch(10, 0, 0, 0, 5, 0) && out == Switch(12, 0, 5, TASK_RUNNING, 0, 0)
    requires wake == Wakeup(15, 5, false) && back == Switch(20, 0, 0, 0, 5, 0)
    ensures Settled([first] + [out] + [wake] + [back])
  {
    assert [] + [first] == [first];
    hide Settled, Rewound, Abs, Run, Step;
    AbsEmpty();
    SettledSnoc([], first);
    RunSnoc(cfg, [], first);
    SettledSnoc([first], out);
    RunSnoc(cfg, [first], out);
    SettledSnoc([first] + [out], wake);
    RunSnoc(cfg, [first] + [out], wake);
    SettledSnoc([first] + [out] + [wake], back);
  }

  lemma AbsEmpty()
    ensures Abs([]) == START && Rewound([]) == {} && Settled([])
  {
  }

  lemma LeaverWakes(first: Event, out: Event, wake: Event)
    requires first == Switch(10, 0, 0, 0, 5, 0) && out == Switch(12, 0, 5, TASK_RUNNING, 0, 0)
    requires wake == Wakeup(15, 5, false)
    ensures var events := [first] + [out] + [wake]; StaleWake(events, 5).None? && FirstWake(events, 5) == Some(15)
  {
    var events := [first] + [out] + [wake];
    assert events[..2] == [first, out] && [first, out][..1] == [first] && [first][..0] == [];
    assert 5 in AbsStep(START, first).seen && Abs([first]) == AbsStep(START, first);
    assert StaleWake([first], 5) == None;
    assert FirstWake([first, out], 5) == None && StaleWake([first, out], 5) == None;
  }

  lemma NothingYet(cfg: Config)
    ensures Run(cfg, []).threads == Threads([], map[], map[], map[], map[])
  {
  }

  lemma ComesIn(cfg: Config, first: Event)
    requires first == Switch(10, 0, 0, 0, 5, 0)
    ensures Threads([], map[], map[], map[], map[]).SwitchIn(first).SwitchOut(cfg, first) ==
            Threads([StateRow(10, INVALID_U64, 0, 5, TASK_RUNNING)], map[0 := 0], map[5 := Remembered(0, TASK_RUNNING)],
                    map[], map[])
  {
  }

  lemma LeavesRunning(cfg: Config, out: Event)
    requires out == Switch(12, 0, 5, TASK_RUNNING, 0, 0)
    ensures var th := Threads([StateRow(10, INVALID_U64, 0, 5, TASK_RUNNING)], map[0 := 0],
                              map[5 := Remembered(0, TASK_RUNNING)], map[], map[]);
            && th.InRange()
            && th.SwitchIn(out).SwitchOut(cfg, out) ==
               Threads([StateRow(10, 2, 0, 5, TASK_RUNNING), StateRow(12, INVALID_U64, INVALID_U32, 5, TASK_RUNNING)],
                       map[0 := 0], map[5 := Remembered(1, TASK_RUNNING)], map[], map[])
  {
    var none: map<U32, nat> := map[];
    assert none - {5} == none;
  }

  lemma WokenWaiting(s: State, cfg: Config, wake: Event)
    requires s.InRange() && wake == Wakeup(15, 5, false) && s.threads.runnable == map[]
    ensures Step(s, cfg, wake).threads == s.threads.(runnable := map[5 := 15])
  {
  }

  lemma ComesBackUnwoken(cfg: Config, back: Event)
    requires back == Switch(20, 0, 0, 0, 5, 0)
    ensures var th :=
              Threads([StateRow(10, 2, 0, 5, TASK_RUNNING), StateRow(12, INVALID_U64, INVALID_U32, 5, TASK_RUNNING)],
                      map[0 := 0], map[5 := Remembered(1, TASK_RUNNING)], map[5 := 15], map[]);
            && th.InRange()
            && th.SwitchIn(back).SwitchOut(cfg, back).rows ==
               [StateRow(10, 2, 0, 5, TASK_RUNNING), StateRow(12, 8, INVALID_U32, 5, TASK_RUNNING),
                StateRow(20, INVALID_U64, 0, 5, TASK_RUNNING)]
  {
  }
}
