/** A tree of synchronous calls restores every stack and empties what it put into the pending maps. */
module BinderCalls {
  import opened MachineWords
  import opened SliceFilter
  import opened SliceForest
  import opened SliceCallStacks
  import opened BinderFilter

  ghost predicate AllBefore(rows: seq<SliceRow>, now: nat) {
    forall t: U32 :: Before(rows, t, now)
  }

  lemma AllBeforeLater(rows: seq<SliceRow>, now: nat, later: nat)
    requires AllBefore(rows, now) && now <= later
    ensures AllBefore(rows, later)
  {
    forall t: U32 ensures Before(rows, t, later) {
      assert Before(rows, t, now);
    }
  }

  /** Begin a slice on thread t: one row more, one open slice more on t, other threads as before. */
  lemma Begins(s: Stacks, ts: nat, t: U32, name: DataIndex)
    requires s.InRange() && Forest(s) && AllBefore(s.rows, ts) && |Ready(s, t)| < MAX_DEPTH
    ensures var (out, row) := s.Start(ts, OPEN, t, BINDER, name);
            && Forest(out) && AllBefore(out.rows, ts) && row == Some(|s.rows|)
            && |out.rows| == |s.rows| + 1 && out.rows[..|s.rows|] == s.rows
            && Shows(out.rows[|s.rows|], ts, OPEN, t, name)
            && out.Stack(t) == Ready(s, t) + [|s.rows|]
            && (forall x | x != t :: out.Stack(x) == s.Stack(x))
            && (forall x :: Ready(out, x) == if x == t then Ready(s, t) + [|s.rows|] else Ready(s, x))
  {
    assert Before(s.rows, t, ts);
    StartForest(s, ts, OPEN, t, BINDER, name);
    StartShape(s, ts, OPEN, t, BINDER, name);
    var out := s.Start(ts, OPEN, t, BINDER, name).0;
    forall x: U32 ensures Before(out.rows, x, ts) {
      StartBefore(s, ts, OPEN, t, BINDER, name);
      if x != t { StartOther(s, ts, OPEN, t, BINDER, name, x); assert Before(s.rows, x, ts); }
    }
    forall x: U32 | x != t ensures Ready(out, x) == Ready(s, x) {
      StartOther(s, ts, OPEN, t, BINDER, name, x);
    }
    hide Forest;
  }

  ghost predicate Shows(row: SliceRow, ts: nat, dur: int, t: U32, name: DataIndex) {
    row.IsSync() && row.ts == ts && row.dur == dur && row.itid == t && row.cat == BINDER && row.name == name
  }

  /** End the topmost slice r of thread t: only that row changes. */
  lemma Ends(s: Stacks, ts: nat, t: U32, rest: seq<nat>, r: nat)
    requires s.InRange() && Forest(s) && AllBefore(s.rows, ts) && Ready(s, t) == rest + [r]
    ensures var out := s.Complete(ts, t, INVALID_U64, INVALID_U64).0;
            && r < |s.rows| && Forest(out) && AllBefore(out.rows, ts)
            && out.rows == Closed(s.rows, r, ts)
            && (forall x :: Ready(out, x) == if x == t then rest else Ready(s, x))
  {
    assert Before(s.rows, t, ts);
    assert rest == (rest + [r])[..|rest|];
    CompleteForest(s, ts, t);
    CompleteShape(s, ts, t);
    TopIsOpen(s, t, r);
    EndStacked(s, ts, t, r);
    CloseIsOpenPart(s.rows, t, s.Stack(t), ts);
    var out := s.Complete(ts, t, INVALID_U64, INVALID_U64).0;
    forall x: U32 ensures Before(out.rows, x, ts) {
      CompleteBefore(s, ts, t);
      if x != t { CompleteOther(s, ts, t, x); assert Before(s.rows, x, ts); }
    }
    forall x: U32 | x != t ensures Ready(out, x) == Ready(s, x) {
      CompleteOther(s, ts, t, x);
    }
    hide Forest;
  }

  // ---------- the two ends of a call ----------

  /** What a call needs: a forest, time, room on the stacks, and ids that are not pending. */
  ghost predicate Prepared(s: State, now: nat, height: nat, ids: set<U64>) {
    && s.InRange() && Forest(s.stacks) && AllBefore(s.stacks.rows, now)
    && (forall t: U32 :: |Ready(s.stacks, t)| + height <= MAX_DEPTH)
    && ids !! s.waiting && ids !! s.needReply.Keys
  }

  /** After the call has been received: one open slice more on each side. */
  ghost predicate Entered(s: State, out: State, c: Call)
    requires s.InRange() && out.InRange()
  {
    var n := |s.stacks.rows|;
    && Forest(out.stacks) && AllBefore(out.stacks.rows, c.received)
    && |out.stacks.rows| == n + 2 && out.stacks.rows[..n] == s.stacks.rows
    && Shows(out.stacks.rows[n], c.sent, OPEN, c.caller, TRANSACTION)
    && Shows(out.stacks.rows[n + 1], c.received, OPEN, c.callee, REPLY)
    && (forall t: U32 :: Ready(out.stacks, t) ==
          Ready(s.stacks, t) + if t == c.caller then [n] else if t == c.callee then [n + 1] else [])
    && out.waiting == s.waiting && out.needReply == s.needReply && out.oneWay == s.oneWay
    && out.replyTo == s.replyTo[c.callee := c.caller]
  }

  /** The transaction slice is found on the caller's stack while it is open there. */
  lemma FindsTransaction(s: Stacks, t: U32, rest: seq<nat>, r: nat)
    requires s.InRange() && t in s.stackOf && s.stackOf[t] == rest + [r]
    requires r < |s.rows| && s.rows[r].IsOpen() && s.rows[r].cat == BINDER && s.rows[r].name == TRANSACTION
    ensures s.ArgsRow(t, BINDER, TRANSACTION).Some?
  {
    assert s.stackOf[t][|rest|] == r;
  }

  lemma EnterCall(s: State, c: Call)
    requires Prepared(s, c.sent, 1, {c.tx}) && c.caller != c.callee && c.sent <= c.received
    ensures Entered(s, Enter(s, c), c)
  {
    var n := |s.stacks.rows|;
    hide Forest, Ready, Before;
    Begins(s.stacks, c.sent, c.caller, TRANSACTION);
    var mid := s.SendCall(c.sent, c.caller, c.tx, false);
    AllBeforeLater(mid.stacks.rows, c.sent, c.received);
    Begins(mid.stacks, c.received, c.callee, REPLY);
    var (begun, row) := mid.stacks.Start(c.received, OPEN, c.callee, BINDER, REPLY);
    assert begun.Stack(c.caller) == Ready(s.stacks, c.caller) + [n];
    assert begun.rows[n] == begun.rows[..n + 1][n];
    assert begun.rows[..n] == begun.rows[..n + 1][..n];
    FindsTransaction(begun, c.caller, Ready(s.stacks, c.caller), n);
    assert s.needReply[c.tx := c.caller] - {c.tx} == s.needReply;
  }

  lemma LeaveCall(s: State, c: Call, callerRest: seq<nat>, a: nat, calleeRest: seq<nat>, b: nat)
    requires s.InRange() && Forest(s.stacks) && AllBefore(s.stacks.rows, c.replied)
    requires Ready(s.stacks, c.caller) == callerRest + [a] && Ready(s.stacks, c.callee) == calleeRest + [b]
    requires c.caller != c.callee && c.replied <= c.returned && c.reply !in s.waiting
    ensures var out := Leave(s, c);
            && a < |s.stacks.rows| && b < |s.stacks.rows|
            && Forest(out.stacks) && AllBefore(out.stacks.rows, c.returned)
            && out.stacks.rows == Closed(Closed(s.stacks.rows, b, c.replied), a, c.returned)
            && (forall t: U32 :: Ready(out.stacks, t) ==
                  if t == c.caller then callerRest else if t == c.callee then calleeRest else Ready(s.stacks, t))
            && out.waiting == s.waiting && out.needReply == s.needReply && out.oneWay == s.oneWay
            && out.replyTo == (if c.callee in s.replyTo && s.replyTo[c.callee] == c.caller
                               then s.replyTo - {c.callee} else s.replyTo)
  {
    hide Forest, Ready, Before;
    Ends(s.stacks, c.replied, c.callee, calleeRest, b);
    var mid := s.SendReply(c.replied, c.callee, c.reply, c.caller);
    AllBeforeLater(mid.stacks.rows, c.replied, c.returned);
    Ends(mid.stacks, c.returned, c.caller, callerRest, a);
    assert s.waiting + {c.reply} - {c.reply} == s.waiting;
  }

  // ---------- whole trees ----------

  /** Nothing is left behind: stacks, old rows and pending maps are as before the calls. */
  ghost predicate Restored(s: State, out: State, callees: set<U32>, now: nat)
    requires s.InRange() && out.InRange()
  {
    && Forest(out.stacks) && AllBefore(out.stacks.rows, now)
    && |s.stacks.rows| <= |out.stacks.rows| && out.stacks.rows[..|s.stacks.rows|] == s.stacks.rows
    && (forall t: U32 :: Ready(out.stacks, t) == Ready(s.stacks, t))
    && out.waiting == s.waiting && out.needReply == s.needReply && out.oneWay == s.oneWay
    && out.replyTo == s.replyTo - callees
  }

  lemma RestoredTwice(s: State, mid: State, out: State, a: set<U32>, b: set<U32>, now: nat, later: nat)
    requires s.InRange() && mid.InRange() && out.InRange()
    requires Restored(s, mid, a, now) && Restored(mid, out, b, later)
    ensures Restored(s, out, a + b, later)
  {
    hide Forest, Ready, AllBefore;
    assert out.stacks.rows[..|s.stacks.rows|] == out.stacks.rows[..|mid.stacks.rows|][..|s.stacks.rows|];
    assert s.replyTo - a - b == s.replyTo - (a + b);
  }

  /** The slices of a call at rows n and n + 1, and of its inner calls after them. */
  ghost predicate Laid(rows: seq<SliceRow>, c: Call, n: nat)
    decreases c
  {
    && n + 1 < |rows|
    && Shows(rows[n], c.sent, c.returned - c.sent, c.caller, TRANSACTION)
    && Shows(rows[n + 1], c.received, c.replied - c.received, c.callee, REPLY)
    && LaidAll(rows, c.inner, n + 2)
  }

  ghost predicate LaidAll(rows: seq<SliceRow>, calls: seq<Call>, n: nat)
    decreases calls
  {
    calls != [] ==> Laid(rows, calls[0], n) && LaidAll(rows, calls[1..], n + 2 * Size(calls[0]))
  }

  function Size(c: Call): nat { 1 + SizeOf(c.inner) }

  function SizeOf(calls: seq<Call>): nat {
    if calls == [] then 0 else Size(calls[0]) + SizeOf(calls[1..])
  }

  /** Slices stay laid when only earlier rows change and later rows are added. */
  lemma {:induction false} StaysLaid(rows: seq<SliceRow>, out: seq<SliceRow>, c: Call, n: nat)
    requires Laid(rows, c, n) && |rows| <= |out| && forall i | n <= i < |rows| :: out[i] == rows[i]
    ensures Laid(out, c, n)
    decreases c
  {
    StaysLaidAll(rows, out, c.inner, n + 2);
  }

  lemma {:induction false} StaysLaidAll(rows: seq<SliceRow>, out: seq<SliceRow>, calls: seq<Call>, n: nat)
    requires LaidAll(rows, calls, n) && |rows| <= |out| && forall i | n <= i < |rows| :: out[i] == rows[i]
    ensures LaidAll(out, calls, n)
    decreases calls
  {
    if calls != [] {
      StaysLaid(rows, out, calls[0], n);
      StaysLaidAll(rows, out, calls[1..], n + 2 * Size(calls[0]));
    }
  }

  /** The inner calls find things prepared. */
  lemma PreparedInside(s: State, mid: State, c: Call)
    requires Prepared(s, c.sent, Height(c), Ids(c)) && mid.InRange() && Entered(s, mid, c)
    ensures Prepared(mid, c.received, HeightOf(c.inner), IdsOf(c.inner))
  {
    hide Forest, Ready, AllBefore, Shows;
  }

  /** From the restored inner state, leaving the call restores the outer one. */
  lemma LeaveRestores(s: State, mid: State, done: State, c: Call)
    requires s.InRange() && mid.InRange() && done.InRange() && WellFormed(c) && c.reply !in s.waiting
    requires Entered(s, mid, c) && Restored(mid, done, CalleesOf(c.inner), c.replied)
    ensures Restored(s, Leave(done, c), Callees(c), c.returned)
    ensures var n, out := |s.stacks.rows|, Leave(done, c).stacks.rows;
            && n + 2 <= |out| == |done.stacks.rows|
            && Shows(out[n], c.sent, c.returned - c.sent, c.caller, TRANSACTION)
            && Shows(out[n + 1], c.received, c.replied - c.received, c.callee, REPLY)
            && (forall i | n + 2 <= i < |out| :: out[i] == done.stacks.rows[i])
  {
    hide Forest, Ready, AllBefore, WellFormed;
    var n := |s.stacks.rows|;
    assert c.caller != c.callee && c.sent <= c.received <= c.replied <= c.returned by { OrderOf(c); }
    LeaveCall(done, c, Ready(s.stacks, c.caller), n, Ready(s.stacks, c.callee), n + 1);
    assert done.stacks.rows[n] == done.stacks.rows[..n + 2][n]
        && done.stacks.rows[n + 1] == done.stacks.rows[..n + 2][n + 1];
    var out := Leave(done, c);
    assert out.stacks.rows[..n] == done.stacks.rows[..n + 2][..n];
    assert out.replyTo == s.replyTo - Callees(c);
  }

  lemma OrderOf(c: Call)
    requires WellFormed(c)
    ensures c.caller != c.callee && c.sent <= c.received <= c.replied <= c.returned
  {
  }

  lemma EnterPrepared(s: State, c: Call)
    requires s.InRange() && Prepared(s, c.sent, Height(c), Ids(c)) && WellFormed(c)
    ensures Entered(s, Enter(s, c), c) && |Enter(s, c).stacks.rows| == |s.stacks.rows| + 2
    ensures Prepared(Enter(s, c), c.received, HeightOf(c.inner), IdsOf(c.inner))
    ensures InSequence(c.inner, c.callee, c.received, c.replied) && c.reply !in s.waiting
  {
    assert c.tx in Ids(c) && c.reply in Ids(c);
    hide Forest, Ready, AllBefore, Enter;
    EnterCall(s, c);
    PreparedInside(s, Enter(s, c), c);
  }

  /**
   * Every finite, properly nested tree of synchronous calls, re-entrant callbacks included, restores the
   * stack of every thread and the pending maps, and leaves for every call a transaction slice that
   * contains the callee's reply slice, which contains the slices of the inner calls.
   */
  lemma {:induction false} CallRestores(s: State, c: Call)
    requires s.InRange() && Prepared(s, c.sent, Height(c), Ids(c)) && WellFormed(c)
    ensures Restored(s, Process(s, c), Callees(c), c.returned)
    ensures |Process(s, c).stacks.rows| == |s.stacks.rows| + 2 * Size(c)
    ensures Laid(Process(s, c).stacks.rows, c, |s.stacks.rows|)
    decreases c
  {
    hide Prepared, Restored, Entered, WellFormed, Enter, Leave;
    var mid := Enter(s, c);
    EnterPrepared(s, c);
    CallsRestore(mid, c.inner, c.callee, c.received, c.replied);
    var done := ProcessAll(mid, c.inner);
    LeaveRestores(s, mid, done, c);
    StaysLaidAll(done.stacks.rows, Process(s, c).stacks.rows, c.inner, |s.stacks.rows| + 2);
  }

  lemma {:induction false} CallsRestore(s: State, calls: seq<Call>, caller: U32, from: nat, to: nat)
    requires s.InRange() && Prepared(s, from, HeightOf(calls), IdsOf(calls)) && InSequence(calls, caller, from, to)
    ensures Restored(s, ProcessAll(s, calls), CalleesOf(calls), to)
    ensures |ProcessAll(s, calls).stacks.rows| == |s.stacks.rows| + 2 * SizeOf(calls)
    ensures LaidAll(ProcessAll(s, calls).stacks.rows, calls, |s.stacks.rows|)
    decreases calls
  {
    hide Prepared, Restored, Process, WellFormed;
    if calls == [] {
      NoCallsRestore(s, from, to);
    } else {
      var c, rest := calls[0], calls[1..];
      var mid, out := Process(s, c), ProcessAll(Process(s, c), rest);
      PreparedFirst(s, calls, from);
      CallRestores(s, c);
      PreparedRest(s, mid, calls, from);
      CallsRestore(mid, rest, caller, c.returned, to);
      RestoredTwice(s, mid, out, Callees(c), CalleesOf(rest), c.returned, to);
      RestoredRows(mid, out, CalleesOf(rest), to);
      StaysLaid(mid.stacks.rows, out.stacks.rows, c, |s.stacks.rows|);
    }
  }

  lemma NoCallsRestore(s: State, from: nat, to: nat)
    requires s.InRange() && Prepared(s, from, 0, {}) && from <= to
    ensures Restored(s, s, {}, to)
  {
    AllBeforeLater(s.stacks.rows, from, to);
  }

  lemma RestoredRows(s: State, out: State, callees: set<U32>, now: nat)
    requires s.InRange() && out.InRange() && Restored(s, out, callees, now)
    ensures |s.stacks.rows| <= |out.stacks.rows| && forall i | 0 <= i < |s.stacks.rows| ::
            out.stacks.rows[i] == s.stacks.rows[i]
  {
    assert forall i | 0 <= i < |s.stacks.rows| :: out.stacks.rows[i] == out.stacks.rows[..|s.stacks.rows|][i];
  }

  lemma PreparedFirst(s: State, calls: seq<Call>, from: nat)
    requires Prepared(s, from, HeightOf(calls), IdsOf(calls)) && calls != [] && from <= calls[0].sent
    ensures Prepared(s, calls[0].sent, Height(calls[0]), Ids(calls[0]))
  {
    AllBeforeLater(s.stacks.rows, from, calls[0].sent);
  }

  lemma PreparedRest(s: State, mid: State, calls: seq<Call>, from: nat)
    requires Prepared(s, from, HeightOf(calls), IdsOf(calls)) && calls != []
    requires mid.InRange() && Restored(s, mid, Callees(calls[0]), calls[0].returned)
    ensures Prepared(mid, calls[0].returned, HeightOf(calls[1..]), IdsOf(calls[1..]))
  {
    hide Forest, Ready, AllBefore;
  }

  /** The caller's transaction slice contains the callee's reply slice. */
  lemma TransactionContainsReply(s: State, c: Call)
    requires s.InRange() && Prepared(s, c.sent, Height(c), Ids(c)) && WellFormed(c)
    ensures var rows, n := Process(s, c).stacks.rows, |s.stacks.rows|;
            && n + 1 < |rows| && rows[n].itid == c.caller && rows[n + 1].itid == c.callee
            && rows[n].ts <= rows[n + 1].ts && rows[n + 1].End() <= rows[n].End()
            && !rows[n].IsOpen() && !rows[n + 1].IsOpen()
  {
    hide Prepared, Restored, Process;
    CallRestores(s, c);
    OrderOf(c);
  }
}
