/** Where RUNNABLE_BINDER labels come from, on every trace, consistent or not. */
module CpuBinder {
  import opened MachineWords
  import opened CpuFilter
  import opened CpuSchedule

  /** Event i sends transaction tx from thread `from`, and tx is neither sent again nor received since. */
  ghost predicate SentAt(events: seq<Event>, tx: U32, from: U32, i: int) {
    && 0 <= i < |events| && events[i] == BinderSend(tx, from)
    && forall m | i < m < |events| ::
         !(events[m].BinderSend? && events[m].tx == tx) && !(events[m].BinderRecv? && events[m].tx == tx)
  }

  /**
   * The switch e takes thread info.from off its cpu in state TASK_NEW directly to thread info.to; the
   * sched_slice row noted is the one it closed, the thread_state row noted is the one it appended.
   */
  ghost predicate NotedBy(before: State, e: Event, after: State, info: BinderInfo) {
    && e.Switch? && e.prev == info.from && e.next == info.to && e.prevState == TASK_NEW
    && e.cpu in before.slices.onCpu && info.sched == Some(before.slices.onCpu[e.cpu])
    && |after.threads.rows| > |before.threads.rows| && info.state == Some(|after.threads.rows| - 1)
    && after.threads.rows[|after.threads.rows| - 1] == StateRow(e.ts, INVALID_U64, INVALID_U32, e.prev, TASK_NEW)
  }

  ghost predicate NotedAt(cfg: Config, events: seq<Event>, info: BinderInfo, k: int) {
    0 <= k < |events| && NotedBy(Run(cfg, events[..k]), events[k], Run(cfg, events[..k + 1]), info)
  }

  ghost predicate Origin(cfg: Config, events: seq<Event>, tx: U32, info: BinderInfo, i: int, k: int) {
    SentAt(events, tx, info.from, i) && NotedAt(cfg, events, info, k) && i < k
  }

  /** Every pending transaction has its send, and every transaction with rows its switch after that. */
  ghost predicate Explained(cfg: Config, events: seq<Event>) {
    var info := Run(cfg, events).binder.info;
    && (forall tx <- info :: exists i :: SentAt(events, tx, info[tx].from, i))
    && (forall tx <- info :: info[tx].state.Some? ==> exists i, k :: Origin(cfg, events, tx, info[tx], i, k))
  }

  lemma SentExtends(events: seq<Event>, e: Event, tx: U32, from: U32, i: int)
    requires SentAt(events, tx, from, i)
    requires !(e.BinderSend? && e.tx == tx) && !(e.BinderRecv? && e.tx == tx)
    ensures SentAt(events + [e], tx, from, i)
  {
  }

  lemma OriginExtends(cfg: Config, events: seq<Event>, e: Event, tx: U32, info: BinderInfo, i: int, k: int)
    requires Origin(cfg, events, tx, info, i, k)
    requires !(e.BinderSend? && e.tx == tx) && !(e.BinderRecv? && e.tx == tx)
    ensures Origin(cfg, events + [e], tx, info, i, k)
  {
    hide Run, NotedBy;
    assert (events + [e])[..k] == events[..k] && (events + [e])[..k + 1] == events[..k + 1];
  }

  /** Transactions that a step leaves alone stay explained. */
  lemma KeptExplained(cfg: Config, events: seq<Event>, e: Event, tx: U32)
    requires Explained(cfg, events)
    requires !(e.BinderSend? && e.tx == tx) && !(e.BinderRecv? && e.tx == tx)
    requires tx in Run(cfg, events).binder.info
    ensures var info := Run(cfg, events).binder.info;
            && (exists i :: SentAt(events + [e], tx, info[tx].from, i))
            && (info[tx].state.Some? ==> exists i, k :: Origin(cfg, events + [e], tx, info[tx], i, k))
  {
    var info := Run(cfg, events).binder.info;
    var i :| SentAt(events, tx, info[tx].from, i);
    SentExtends(events, e, tx, info[tx].from, i);
    if info[tx].state.Some? {
      var i, k :| Origin(cfg, events, tx, info[tx], i, k);
      OriginExtends(cfg, events, e, tx, info[tx], i, k);
    }
  }

  /** What a switch notes is what NotedBy describes. */
  lemma SwitchNotes(s: State, cfg: Config, e: Event)
    requires s.InRange() && e.Switch? && e.prevState == TASK_NEW
    requires SwitchInfo(s, cfg, e).sched.Some? && SwitchInfo(s, cfg, e).state.Some?
    ensures NotedBy(s, e, Step(s, cfg, e), SwitchInfo(s, cfg, e))
  {
    hide Threads.SwitchIn, Threads.SwitchOut;
    SwitchInRows(s.threads, e);
    SwitchOutRows(s.threads.SwitchIn(e), cfg, e);
    SwitchThreads(s, cfg, e);
  }

  /** A step leaves a pending transaction alone, starts it, or notes a switch for it. */
  lemma InfoStep(s: State, cfg: Config, e: Event, tx: U32)
    requires s.InRange() && tx in Step(s, cfg, e).binder.info
    ensures var info := Step(s, cfg, e).binder.info[tx];
            if e.BinderSend? && e.tx == tx then info == BinderInfo(e.itid, INVALID_U32, None, None)
            else tx in s.binder.info && !(e.BinderRecv? && e.tx == tx)
                 && (info == s.binder.info[tx]
                     || (s.binder.info[tx].from == info.from && NotedBy(s, e, Step(s, cfg, e), info)))
  {
    if e.Switch? && cfg.binderRunnable {
      var noted := SwitchInfo(s, cfg, e);
      if e.prevState == TASK_NEW && noted.sched.Some? && noted.state.Some? {
        SwitchNotes(s, cfg, e);
      }
    }
  }

  lemma TransactionExplained(cfg: Config, events: seq<Event>, e: Event, tx: U32)
    requires Explained(cfg, events) && tx in Run(cfg, events + [e]).binder.info
    ensures var info := Run(cfg, events + [e]).binder.info[tx];
            && (exists i :: SentAt(events + [e], tx, info.from, i))
            && (info.state.Some? ==> exists i, k :: Origin(cfg, events + [e], tx, info, i, k))
  {
    assert (events + [e])[..|events|] == events && (events + [e])[..|events| + 1] == events + [e];
    var s, out := Run(cfg, events), Run(cfg, events + [e]);
    assert out == Step(s, cfg, e);
    hide Run, Step, NotedBy;
    InfoStep(s, cfg, e, tx);
    if e.BinderSend? && e.tx == tx {
      assert SentAt(events + [e], tx, e.itid, |events|);
    } else {
      KeptExplained(cfg, events, e, tx);
      if out.binder.info[tx] != s.binder.info[tx] {
        var i :| SentAt(events, tx, s.binder.info[tx].from, i);
        SentExtends(events, e, tx, s.binder.info[tx].from, i);
        assert Origin(cfg, events + [e], tx, out.binder.info[tx], i, |events|);
      }
    }
  }

  lemma StepExplained(cfg: Config, events: seq<Event>, e: Event)
    requires Explained(cfg, events)
    ensures Explained(cfg, events + [e])
  {
    var info := Run(cfg, events + [e]).binder.info;
    forall tx <- info
      ensures exists i :: SentAt(events + [e], tx, info[tx].from, i)
      ensures info[tx].state.Some? ==> exists i, k :: Origin(cfg, events + [e], tx, info[tx], i, k)
    {
      TransactionExplained(cfg, events, e, tx);
    }
  }

  lemma {:induction false} RunExplained(cfg: Config, events: seq<Event>)
    ensures Explained(cfg, events)
  {
    if events != [] {
      var n := |events| - 1;
      RunExplained(cfg, events[..n]);
      StepExplained(cfg, events[..n], events[n]);
      assert events[..n] + [events[n]] == events;
    }
  }

  /** A step changes labels of old rows only by a blocked reason or by a binder receive. */
  lemma LabelStep(s: State, cfg: Config, e: Event, r: nat)
    requires s.InRange() && r < |s.threads.rows|
    ensures r < |Step(s, cfg, e).threads.rows|
    ensures Step(s, cfg, e).threads.rows[r].state == TASK_RUNNABLE_BINDER != s.threads.rows[r].state ==>
              e.BinderRecv? && s.binder.Relabels(e.tx, e.itid) && s.binder.info[e.tx].state == Some(r)
  {
    if e.Switch? {
      SwitchInRows(s.threads, e);
      SwitchOutRows(s.threads.SwitchIn(e), cfg, e);
    }
  }

  /**
   * Whatever the trace: a thread_state row becomes RUNNABLE_BINDER only on a receive by thread t of a
   * transaction whose sender was, after sending it, switched out in state TASK_NEW directly to t; the
   * row is the one that switch appended, and the sched_slice row relabelled with it is the one that
   * switch closed.
   */
  lemma BinderLabelOrigin(cfg: Config, events: seq<Event>, e: Event, r: nat)
    requires r < |Run(cfg, events).threads.rows|
    requires Run(cfg, events).threads.rows[r].state != TASK_RUNNABLE_BINDER
    requires Step(Run(cfg, events), cfg, e).threads.rows[r].state == TASK_RUNNABLE_BINDER
    ensures e.BinderRecv?
    ensures exists info, i, k ::
              Origin(cfg, events, e.tx, info, i, k) && info.to == e.itid && info.state == Some(r)
              && info.sched.value < |Run(cfg, events).slices.rows|
              && Step(Run(cfg, events), cfg, e).slices.rows
                   == Relabelled(Run(cfg, events).slices.rows, info.sched.value)
  {
    hide Run, Step, Origin, SentAt;
    var s := Run(cfg, events);
    LabelStep(s, cfg, e, r);
    RunExplained(cfg, events);
    SlicesRelabelled(s, cfg, e);
    var info := s.binder.info[e.tx];
    var i, k :| Origin(cfg, events, e.tx, info, i, k);
    assert Origin(cfg, events, e.tx, info, i, k) && info.to == e.itid && info.state == Some(r);
  }

  /** A sched_slice table with the end state of one row relabelled. */
  function Relabelled(rows: seq<SchedRow>, i: nat): seq<SchedRow>
    requires i < |rows|
  {
    rows[i := rows[i].(endState := TASK_RUNNABLE_BINDER)]
  }

  lemma SlicesRelabelled(s: State, cfg: Config, e: Event)
    requires s.InRange() && e.BinderRecv? && s.binder.Relabels(e.tx, e.itid)
    ensures var i := s.binder.info[e.tx].sched.value;
            i < |s.slices.rows| && Step(s, cfg, e).slices.rows == Relabelled(s.slices.rows, i)
  {
  }
}
