/** Over every orderly run, each thread's slices form a forest and its stack is the path of open ones. */
module SliceCallStacks {
  import opened MachineWords
  import opened SliceFilter
  import opened SliceForest
  import opened SliceRun
  import opened SliceLedger

  /** Other threads see neither their stack nor their slices change. */
  ghost predicate OtherThread(s: Stacks, out: Stacks, x: U32)
    requires s.InRange() && out.InRange()
  {
    && Ready(out, x) == Ready(s, x)
    && forall now | Before(s.rows, x, now) :: Before(out.rows, x, now)
  }

  lemma StartOther(s: Stacks, ts: nat, dur: int, t: U32, cat: DataIndex, name: DataIndex, x: U32)
    requires s.InRange() && x != t
    ensures OtherThread(s, s.Start(ts, dur, t, cat, name).0, x)
  {
    hide CloseUnmatched;
  }

  lemma StartDepth(s: Stacks, ts: nat, dur: int, t: U32, cat: DataIndex, name: DataIndex)
    requires Forest(s) && Before(s.rows, t, ts) && |Ready(s, t)| < MAX_DEPTH && (dur == OPEN || dur == 0)
    ensures |Ready(s.Start(ts, dur, t, cat, name).0, t)| == |Ready(s, t)| + if dur == OPEN then 1 else 0
  {
    StartShape(s, ts, dur, t, cat, name);
  }

  lemma CloseOther(rows: seq<SliceRow>, r: nat, ts: nat, x: U32, stack: seq<nat>)
    requires StackOk(rows, x, stack) && r < |rows| && rows[r].itid != x
    ensures OpenPart(Closed(rows, r, ts), stack) == OpenPart(rows, stack)
    ensures forall now | Before(rows, x, now) :: Before(Closed(rows, r, ts), x, now)
  {
  }

  lemma CompleteOther(s: Stacks, ts: nat, t: U32, x: U32)
    requires Forest(s) && Before(s.rows, t, ts) && x != t
    ensures OtherThread(s, s.Complete(ts, t, INVALID_U64, INVALID_U64).0, x)
  {
    hide Parents, Siblings, OpenStacked;
    CompleteShape(s, ts, t);
    if t in s.stackOf && Ready(s, t) != [] {
      var r := Ready(s, t)[|Ready(s, t)| - 1];
      TopIsOpen(s, t, r);
      assert StackOk(s.rows, x, s.Stack(x));
      CloseOther(s.rows, r, ts, x, s.Stack(x));
      hide StackOk, Before;
    }
  }

  lemma CompleteDepth(s: Stacks, ts: nat, t: U32)
    requires Forest(s) && Before(s.rows, t, ts)
    ensures |Ready(s.Complete(ts, t, INVALID_U64, INVALID_U64).0, t)|
         == if Ready(s, t) == [] then 0 else |Ready(s, t)| - 1
  {
    CompleteShape(s, ts, t);
    CloseIsOpenPart(s.rows, t, s.Stack(t), ts);
    if t in s.stackOf && Ready(s, t) != [] {
      EndStacked(s, ts, t, Ready(s, t)[|Ready(s, t)| - 1]);
      TopIsOpen(s, t, Ready(s, t)[|Ready(s, t)| - 1]);
      hide Parents, Siblings, OpenStacked, Stacks.Complete;
    }
  }

  // ---------- runs ----------

  /** The state of thread t after a run: forest, depth and time. */
  ghost predicate Sound(s: Stacks, t: U32, nesting: nat, now: nat)
    requires s.InRange()
  {
    |Ready(s, t)| == nesting && Before(s.rows, t, now)
  }

  lemma StackedStep(s: Stacks, e: Event, out: Stacks, t: U32, nesting: nat, now: nat)
    requires s.InRange() && Forest(s) && (e.Begin? || e.End? || e.Point?) && Before(s.rows, e.t, e.ts)
    requires e.Begin? || e.Point? ==> |Ready(s, e.t)| < MAX_DEPTH
    requires Sound(s, t, nesting, now)
    requires out == if e.End? then s.Complete(e.ts, e.t, INVALID_U64, INVALID_U64).0
                    else s.Start(e.ts, if e.Begin? then OPEN else 0, e.t, e.cat, e.name).0
    ensures Forest(out)
    ensures Sound(out, t, if t != e.t then nesting
                         else if e.Begin? then nesting + 1
                         else if e.End? && nesting > 0 then nesting - 1 else nesting,
                  if t == e.t then e.ts else now)
  {
    hide Forest, Stacks.Start, Stacks.Complete, Ready, Before;
    if e.End? {
      CompleteForest(s, e.ts, e.t);
      CompleteBefore(s, e.ts, e.t);
      CompleteDepth(s, e.ts, e.t);
      if t != e.t { CompleteOther(s, e.ts, e.t, t); }
    } else {
      var dur := if e.Begin? then OPEN else 0;
      StartForest(s, e.ts, dur, e.t, e.cat, e.name);
      StartBefore(s, e.ts, dur, e.t, e.cat, e.name);
      StartDepth(s, e.ts, dur, e.t, e.cat, e.name);
      if t != e.t { StartOther(s, e.ts, dur, e.t, e.cat, e.name, t); }
    }
  }

  /** A keyed event appends a keyed row, closes one, or does nothing. */
  lemma KeyedShape(events: seq<Event>, e: Event)
    requires e.S? || e.F? || e.G? || e.H?
    ensures var s, out := Run(events).stacks, Step(Run(events), e).stacks;
            || out == s
            || (exists row: SliceRow :: !row.IsSync() && out == AppendRow(s, row))
            || (exists r :: 0 <= r < |s.rows| && !s.rows[r].IsSync() && out == CloseRow(s, r, e.ts))
  {
    match e
    case F(ts, key) => FClosesItsS(events, ts, key);
    case H(ts, key) => HClosesLatestG(events, ts, key);
    case _ =>
  }

  lemma AppendSound(s: Stacks, row: SliceRow, t: U32, nesting: nat, now: nat)
    requires s.InRange() && !row.IsSync() && Sound(s, t, nesting, now)
    ensures Sound(AppendRow(s, row), t, nesting, now)
  {
  }

  lemma CloseSound(s: Stacks, r: nat, ts: nat, t: U32, nesting: nat, now: nat)
    requires s.InRange() && (t in s.stackOf ==> StackOk(s.rows, t, s.stackOf[t]))
    requires r < |s.rows| && !s.rows[r].IsSync() && Sound(s, t, nesting, now)
    ensures Sound(CloseRow(s, r, ts), t, nesting, now)
  {
  }

  lemma KeyedStep(s: Stacks, out: Stacks, ts: nat, t: U32, nesting: nat, now: nat)
    requires Forest(s) && Sound(s, t, nesting, now)
    requires || out == s
             || (exists row: SliceRow :: !row.IsSync() && out == AppendRow(s, row))
             || (exists r :: 0 <= r < |s.rows| && !s.rows[r].IsSync() && out == CloseRow(s, r, ts))
    ensures Forest(out) && Sound(out, t, nesting, now)
  {
    hide StackOk, Parents, Siblings, OpenStacked, Sound;
    if row: SliceRow :| !row.IsSync() && out == AppendRow(s, row) {
      AppendKeepsForest(s, row);
      AppendSound(s, row, t, nesting, now);
    } else if r :| 0 <= r < |s.rows| && !s.rows[r].IsSync() && out == CloseRow(s, r, ts) {
      CloseKeepsForest(s, r, ts);
      CloseSound(s, r, ts, t, nesting, now);
    }
  }

  /**
   * Whatever the interleaving over threads and with keyed events: if each thread's time does not go
   * back and no thread nests 255 deep, the stacked rows form a forest (depth is parent depth plus one,
   * children lie inside parents, siblings do not overlap), and the stack of a thread is its open rows
   * plus at most one point on top.
   */
  lemma {:induction false} CallStacksAreForests(events: seq<Event>, t: U32)
    requires Orderly(events)
    ensures Forest(Run(events).stacks) && Sound(Run(events).stacks, t, Nesting(events, t), Clock(events, t))
  {
    if events != [] {
      var rest, e := events[..|events| - 1], events[|events| - 1];
      CallStacksAreForests(rest, t);
      hide Forest, Before;
      if e.Begin? || e.End? || e.Point? {
        CallStacksAreForests(rest, e.t);
        BeforeLater(Run(rest).stacks.rows, e.t, Clock(rest, e.t), e.ts);
        StackedStep(Run(rest).stacks, e, Run(events).stacks, t, Nesting(rest, t), Clock(rest, t));
      } else {
        KeyedShape(rest, e);
        KeyedStep(Run(rest).stacks, Run(events).stacks, e.ts, t, Nesting(rest, t), Clock(rest, t));
      }
    }
  }

  /** On a forest, the open part of a stack is the path from a root to its top. */
  lemma StackIsPath(s: Stacks, t: U32, k: nat)
    requires Forest(s) && k < |Ready(s, t)|
    ensures s.rows[Ready(s, t)[k]].IsOpen()
    ensures s.rows[Ready(s, t)[k]].parent == if k == 0 then None else Some(Ready(s, t)[k - 1])
  {
    hide Siblings, OpenStacked, Before;
    OpenOnStack(s, t, k);
    var r := Ready(s, t)[k];
    assert ParentOk(s.rows, r);
    if k > 0 {
      NothingAbove(s, t, s.rows[r].parent.value);
    }
  }

  lemma OpenOnStack(s: Stacks, t: U32, k: nat)
    requires Forest(s) && k < |Ready(s, t)|
    ensures var r := Ready(s, t)[k];
            r < |s.rows| && s.rows[r].IsSync() && s.rows[r].IsOpen() && s.rows[r].itid == t && s.rows[r].depth == k
  {
    hide Siblings, OpenStacked, Parents;
    assert StackOk(s.rows, t, s.stackOf[t]);
  }
}
