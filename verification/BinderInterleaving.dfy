/** Binder traffic on other threads does not disturb a group of threads that only talk to each other. */
module BinderInterleaving {
  import opened MachineWords
  import opened SliceFilter
  import opened SliceForest
  import opened BinderFilter
  import opened BinderCalls

  /** A binder event: SendTraction or ReceiveTraction. */
  datatype Event =
    | Send(ts: nat, tid: U32, tx: U64, dest: U32, isReply: bool, isOneWay: bool)
    | Receive(ts: nat, tid: U32, tx: U64)

  function Step(s: State, e: Event): (out: State)
    requires s.InRange()
    ensures out.InRange()
  {
    match e
    case Send(ts, tid, tx, dest, isReply, isOneWay) =>
      if isReply then s.SendReply(ts, tid, tx, dest) else s.SendCall(ts, tid, tx, isOneWay)
    case Receive(ts, tid, tx) => s.Receive(ts, tid, tx)
  }

  function Run(s: State, es: seq<Event>): (out: State)
    requires s.InRange()
    ensures out.InRange()
    decreases |es|
  {
    if es == [] then s else Run(Step(s, es[0]), es[1..])
  }

  /** The events of a group of threads. */
  function Of(group: set<U32>, es: seq<Event>): seq<Event>
    decreases |es|
  {
    if es == [] then [] else (if es[0].tid in group then [es[0]] else []) + Of(group, es[1..])
  }

  /** The threads of the group use these ids, and no other thread does. */
  ghost predicate Apart(group: set<U32>, ids: set<U64>, es: seq<Event>) {
    forall k | 0 <= k < |es| :: es[k].tid in group <==> es[k].tx in ids
  }

  // ---------- rows under other numbers ----------

  /** Stack entries under the row numbers that f gives. */
  function Through(f: seq<nat>, stack: seq<nat>): (out: seq<nat>)
    requires forall k | 0 <= k < |stack| :: stack[k] < |f|
    ensures |out| == |stack| && forall k | 0 <= k < |stack| :: out[k] == f[stack[k]]
  {
    seq(|stack|, k requires 0 <= k < |stack| => f[stack[k]])
  }

  /** The same slice, with its parent under its other number. */
  ghost predicate Renamed(row: SliceRow, out: SliceRow, f: seq<nat>) {
    && out == row.(parent := out.parent)
    && match row.parent
       case None => out.parent.None?
       case Some(r) => r < |f| && out.parent == Some(f[r])
  }

  ghost predicate Ascending(f: seq<nat>, n: nat) {
    (forall i | 0 <= i < |f| :: f[i] < n) && forall i, j | 0 <= i < j < |f| :: f[i] < f[j]
  }

  /** The slices of the group are found again, in order, under other numbers. */
  ghost predicate RowsFollow(rows: seq<SliceRow>, out: seq<SliceRow>, f: seq<nat>, group: set<U32>) {
    && |f| == |rows| && Ascending(f, |out|)
    && forall i | 0 <= i < |rows| && rows[i].IsSync() && rows[i].itid in group :: Renamed(rows[i], out[f[i]], f)
  }

  /** Stacks hold slices of their own thread. */
  ghost predicate Owned(s: Stacks) {
    s.InRange() && forall t <- s.stackOf, k | 0 <= k < |s.stackOf[t]| ::
      s.rows[s.stackOf[t][k]].IsSync() && s.rows[s.stackOf[t][k]].itid == t
  }

  ghost predicate StackFollows(p: Stacks, s: Stacks, f: seq<nat>, t: U32)
    requires p.InRange() && |f| == |p.rows|
  {
    (t in s.stackOf <==> t in p.stackOf) && s.Stack(t) == Through(f, p.Stack(t))
  }

  /** Stacks s look to the group like stacks p. */
  ghost predicate Follows(p: Stacks, s: Stacks, f: seq<nat>, group: set<U32>) {
    && Owned(p) && Owned(s) && RowsFollow(p.rows, s.rows, f, group)
    && forall t <- group :: StackFollows(p, s, f, t)
  }

  /** Two stacks whose slices have the same times and names, position by position. */
  ghost predicate SameSlices(rows: seq<SliceRow>, stack: seq<nat>, out: seq<SliceRow>, other: seq<nat>) {
    && RowNumbers(rows, stack) && RowNumbers(out, other) && |stack| == |other|
    && forall k | 0 <= k < |stack| :: out[other[k]] == rows[stack[k]].(parent := out[other[k]].parent)
  }

  lemma SamePart(rows: seq<SliceRow>, stack: seq<nat>, out: seq<SliceRow>, other: seq<nat>, n: nat)
    requires SameSlices(rows, stack, out, other) && n < |stack|
    ensures n < |other| == |stack| && SameSlices(rows, stack[..n], out, other[..n])
    ensures RowNumbers(rows, stack[..n]) && RowNumbers(out, other[..n])
    ensures && stack[n] < |rows| && other[n] < |out|
            && out[other[n]].IsOpen() == rows[stack[n]].IsOpen() && out[other[n]].End() == rows[stack[n]].End()
  {
  }

  /** How one turn of the loop of CloseUnMatchedSlice goes on: from a cut stack or not, and in which mode. */
  function Turn(row: SliceRow, height: nat, ts: nat, i: nat, incomplete: bool): (r: (nat, bool))
    requires i < height
    ensures i <= r.0 <= height
  {
    if row.IsOpen() || (incomplete && ts <= row.End()) then (height, true)
    else if incomplete then (i, false)
    else if ts < row.End() then (height, false)
    else (height - 1, false)
  }

  lemma CloseTurn(rows: seq<SliceRow>, stack: seq<nat>, ts: nat, i: nat, incomplete: bool)
    requires RowNumbers(rows, stack) && i < |stack|
    ensures var (n, mode) := Turn(rows[stack[i]], |stack|, ts, i, incomplete);
            && RowNumbers(rows, stack[..n])
            && CloseFrom(rows, stack, ts, i, incomplete) == CloseFrom(rows, stack[..n], ts, i - 1, mode)
  {
    assert stack[..|stack|] == stack;
  }

  lemma {:induction false} CloseFromSame(rows: seq<SliceRow>, stack: seq<nat>, out: seq<SliceRow>, other: seq<nat>,
                                         ts: nat, i: int, incomplete: bool)
    requires RowNumbers(rows, stack) && RowNumbers(out, other)
    requires SameSlices(rows, stack, out, other) && -1 <= i < |stack| == |other|
    ensures var n := |CloseFrom(rows, stack, ts, i, incomplete)|;
            n <= |other| && CloseFrom(out, other, ts, i, incomplete) == other[..n]
    decreases i + 1
  {
    if i < 0 {
      assert other[..|stack|] == other;
    } else {
      hide SameSlices, CloseFrom, RowNumbers, Turn;
      CloseTurn(rows, stack, ts, i, incomplete);
      CloseTurn(out, other, ts, i, incomplete);
      SameTurn(rows, stack, out, other, ts, i, incomplete);
      var (n, mode) := Turn(rows[stack[i]], |stack|, ts, i, incomplete);
      CloseFromSame(rows, stack[..n], out, other[..n], ts, i - 1, mode);
      var m := |CloseFrom(rows, stack[..n], ts, i - 1, mode)|;
      assert other[..n][..m] == other[..m];
    }
  }

  lemma SameTurn(rows: seq<SliceRow>, stack: seq<nat>, out: seq<SliceRow>, other: seq<nat>, ts: nat, i: nat,
                 incomplete: bool)
    requires SameSlices(rows, stack, out, other) && i < |stack|
    ensures stack[i] < |rows| && |stack| == |other| && other[i] < |out|
    ensures var turn := Turn(rows[stack[i]], |stack|, ts, i, incomplete);
            && Turn(out[other[i]], |other|, ts, i, incomplete) == turn
            && SameSlices(rows, stack[..turn.0], out, other[..turn.0])
  {
    SamePart(rows, stack, out, other, i);
  }

  lemma CloseSame(rows: seq<SliceRow>, stack: seq<nat>, out: seq<SliceRow>, other: seq<nat>, ts: nat)
    requires SameSlices(rows, stack, out, other)
    ensures var n := |CloseUnmatched(rows, stack, ts)|;
            && n <= |stack| && CloseUnmatched(rows, stack, ts) == stack[..n]
            && CloseUnmatched(out, other, ts) == other[..n]
    ensures var n := |CloseUnmatched(rows, stack, ts)|; SameSlices(rows, stack[..n], out, other[..n])
  {
    CloseFromSame(rows, stack, out, other, ts, |stack| - 1, false);
  }

  lemma {:induction false} MatchSame(rows: seq<SliceRow>, stack: seq<nat>, out: seq<SliceRow>, other: seq<nat>,
                                     cat: DataIndex, name: DataIndex)
    requires SameSlices(rows, stack, out, other)
    ensures Match(out, other, cat, name) == Match(rows, stack, cat, name)
    decreases |stack|
  {
    if stack != [] {
      var n := |stack| - 1;
      assert Matches(out[other[n]], cat, name) == Matches(rows[stack[n]], cat, name);
      MatchSame(rows, stack[..n], out, other[..n], cat, name);
    }
  }

  lemma FollowsSame(p: Stacks, s: Stacks, f: seq<nat>, group: set<U32>, t: U32)
    requires Follows(p, s, f, group) && t in group
    ensures SameSlices(p.rows, p.Stack(t), s.rows, s.Stack(t))
  {
    assert StackFollows(p, s, f, t);
  }

  // ---------- slices of the group and of others ----------

  lemma OwnedStart(s: Stacks, ts: nat, dur: int, t: U32, cat: DataIndex, name: DataIndex)
    requires Owned(s)
    ensures Owned(s.Start(ts, dur, t, cat, name).0)
  {
  }

  lemma OwnedComplete(s: Stacks, ts: nat, t: U32, cat: DataIndex, name: DataIndex)
    requires Owned(s)
    ensures Owned(s.Complete(ts, t, cat, name).0)
  {
  }

  lemma RowsGrow(rows: seq<SliceRow>, out: seq<SliceRow>, f: seq<nat>, group: set<U32>, row: SliceRow, other: SliceRow)
    requires RowsFollow(rows, out, f, group) && Renamed(row, other, f)
    ensures RowsFollow(rows + [row], out + [other], f + [|out|], group)
  {
  }

  lemma RowsChange(rows: seq<SliceRow>, out: seq<SliceRow>, f: seq<nat>, group: set<U32>, r: nat, dur: int)
    requires RowsFollow(rows, out, f, group) && r < |rows|
    ensures f[r] < |out|
    ensures RowsFollow(rows[r := rows[r].(dur := dur)], out[f[r] := out[f[r]].(dur := dur)], f, group)
  {
  }

  lemma CloseThrough(p: Stacks, s: Stacks, f: seq<nat>, group: set<U32>, t: U32, ts: nat)
    requires Follows(p, s, f, group) && t in group
    ensures var stack, other := CloseUnmatched(p.rows, p.Stack(t), ts), CloseUnmatched(s.rows, s.Stack(t), ts);
            && RowNumbers(p.rows, stack) && |f| == |p.rows| && other == Through(f, stack)
            && SameSlices(p.rows, stack, s.rows, other)
  {
    hide CloseUnmatched, Owned;
    OwnedInRange(p, s, f, group);
    FollowsSame(p, s, f, group, t);
    CloseSame(p.rows, p.Stack(t), s.rows, s.Stack(t), ts);
    assert StackFollows(p, s, f, t);
  }

  /** The stack of thread t is replaced, and others stay as they are. */
  lemma StackReplaced(p: Stacks, s: Stacks, f: seq<nat>, p': Stacks, s': Stacks, f': seq<nat>, t: U32, x: U32)
    requires p.InRange() && p'.InRange() && |f| == |p.rows| && |f'| == |p'.rows| && f <= f'
    requires StackFollows(p, s, f, x)
    requires t in p'.stackOf && t in s'.stackOf && s'.stackOf[t] == Through(f', p'.stackOf[t])
    requires p'.stackOf == p.stackOf[t := p'.stackOf[t]] && s'.stackOf == s.stackOf[t := s'.stackOf[t]]
    ensures StackFollows(p', s', f', x)
  {
    if x != t {
      assert Through(f', p.Stack(x)) == Through(f, p.Stack(x));
    }
  }

  /** The new row and the new stack of thread t when a slice is started. */
  function StartedRow(stack: seq<nat>, ts: nat, dur: int, t: U32, cat: DataIndex, name: DataIndex): SliceRow {
    SliceRow(ts, dur, t, cat, name, if |stack| < MAX_DEPTH then |stack| else 0,
             if stack == [] then None else Some(stack[|stack| - 1]), None)
  }

  function Pushed(stack: seq<nat>, r: nat): seq<nat> {
    if |stack| < MAX_DEPTH then stack + [r] else stack
  }

  lemma StartParts(s: Stacks, ts: nat, dur: int, t: U32, cat: DataIndex, name: DataIndex)
    requires s.InRange()
    ensures var stack, (out, r) := CloseUnmatched(s.rows, s.Stack(t), ts), s.Start(ts, dur, t, cat, name);
            && out.rows == s.rows + [StartedRow(stack, ts, dur, t, cat, name)]
            && out.stackOf == s.stackOf[t := Pushed(stack, |s.rows|)] && (r.Some? <==> |stack| < MAX_DEPTH)
  {
    hide CloseUnmatched;
  }

  lemma PushedThrough(f: seq<nat>, stack: seq<nat>, r: nat)
    requires forall k | 0 <= k < |stack| :: stack[k] < |f|
    ensures Pushed(Through(f, stack), r) == Through(f + [r], Pushed(stack, |f|))
  {
  }

  lemma StartedRenamed(f: seq<nat>, stack: seq<nat>, ts: nat, dur: int, t: U32, cat: DataIndex, name: DataIndex)
    requires forall k | 0 <= k < |stack| :: stack[k] < |f|
    ensures Renamed(StartedRow(stack, ts, dur, t, cat, name), StartedRow(Through(f, stack), ts, dur, t, cat, name), f)
  {
  }

  lemma StartInside(p: Stacks, s: Stacks, f: seq<nat>, group: set<U32>, ts: nat, dur: int, t: U32, cat: DataIndex,
                    name: DataIndex)
    requires Follows(p, s, f, group) && t in group
    ensures var (p', r), (s', q) := p.Start(ts, dur, t, cat, name), s.Start(ts, dur, t, cat, name);
            Follows(p', s', f + [|s.rows|], group) && (r.Some? <==> q.Some?)
  {
    hide Owned, RowsFollow, SameSlices, CloseUnmatched, StackFollows, Stacks.Start, StartedRow, Pushed, Renamed;
    OwnedInRange(p, s, f, group);
    OwnedStart(p, ts, dur, t, cat, name);
    OwnedStart(s, ts, dur, t, cat, name);
    CloseThrough(p, s, f, group, t, ts);
    var stack := CloseUnmatched(p.rows, p.Stack(t), ts);
    var p', s', f' := p.Start(ts, dur, t, cat, name).0, s.Start(ts, dur, t, cat, name).0, f + [|s.rows|];
    StartParts(p, ts, dur, t, cat, name);
    StartParts(s, ts, dur, t, cat, name);
    StartedRenamed(f, stack, ts, dur, t, cat, name);
    RowsGrow(p.rows, s.rows, f, group, p'.rows[|p.rows|], s'.rows[|s.rows|]);
    PushedThrough(f, stack, |s.rows|);
    hide Through;
    forall x <- group ensures StackFollows(p', s', f', x) {
      StackReplaced(p, s, f, p', s', f', t, x);
    }
  }

  lemma OwnedInRange(p: Stacks, s: Stacks, f: seq<nat>, group: set<U32>)
    requires Follows(p, s, f, group)
    ensures p.InRange() && s.InRange() && |f| == |p.rows|
  {
  }

  /** The rows after the matching slice of a stack has ended. */
  lemma EndedRows(p: Stacks, s: Stacks, f: seq<nat>, group: set<U32>, stack: seq<nat>, other: seq<nat>, ts: nat,
                  cat: DataIndex, name: DataIndex)
    requires Follows(p, s, f, group) && SameSlices(p.rows, stack, s.rows, other)
    requires RowNumbers(p.rows, stack) && |f| == |p.rows| && other == Through(f, stack)
    ensures var i := Match(p.rows, stack, cat, name);
            0 <= i ==>
              && stack[i] < |p.rows| && other[i] < |s.rows|
              && RowsFollow(p.rows[stack[i] := p.rows[stack[i]].(dur := ts - p.rows[stack[i]].ts)],
                            s.rows[other[i] := s.rows[other[i]].(dur := ts - s.rows[other[i]].ts)], f, group)
  {
    hide Owned, RowsFollow;
    var i := Match(p.rows, stack, cat, name);
    if 0 <= i {
      RowsChange(p.rows, s.rows, f, group, stack[i], ts - p.rows[stack[i]].ts);
    }
  }

  /** What is left of a stack when its matching slice has ended. */
  function Left(stack: seq<nat>, i: int): seq<nat> {
    if 0 <= i == |stack| - 1 then stack[..i] else stack
  }

  lemma LeftThrough(f: seq<nat>, stack: seq<nat>, i: int)
    requires (forall k | 0 <= k < |stack| :: stack[k] < |f|) && i < |stack|
    ensures Left(Through(f, stack), i) == Through(f, Left(stack, i))
  {
  }

  lemma CompleteParts(s: Stacks, ts: nat, t: U32, cat: DataIndex, name: DataIndex)
    requires s.InRange() && t in s.stackOf
    ensures var stack, out := CloseUnmatched(s.rows, s.Stack(t), ts), s.Complete(ts, t, cat, name).0;
            var i := Match(s.rows, stack, cat, name);
            && out.stackOf == s.stackOf[t := Left(stack, i)]
            && out.rows == if i < 0 then s.rows
                           else s.rows[stack[i] := s.rows[stack[i]].(dur := ts - s.rows[stack[i]].ts)]
  {
    hide CloseUnmatched, Match;
  }

  lemma CompleteInside(p: Stacks, s: Stacks, f: seq<nat>, group: set<U32>, ts: nat, t: U32, cat: DataIndex,
                       name: DataIndex)
    requires Follows(p, s, f, group) && t in group
    ensures Follows(p.Complete(ts, t, cat, name).0, s.Complete(ts, t, cat, name).0, f, group)
  {
    hide Owned, RowsFollow, CloseUnmatched, Match;
    OwnedInRange(p, s, f, group);
    assert StackFollows(p, s, f, t);
    if t in p.stackOf {
      hide Stacks.Complete, StackFollows;
      OwnedComplete(p, ts, t, cat, name);
      OwnedComplete(s, ts, t, cat, name);
      EndedFollows(p, s, f, group, ts, t, cat, name);
    }
  }

  lemma EndedFollows(p: Stacks, s: Stacks, f: seq<nat>, group: set<U32>, ts: nat, t: U32, cat: DataIndex,
                     name: DataIndex)
    requires Follows(p, s, f, group) && t in group && p.InRange() && s.InRange() && t in p.stackOf && t in s.stackOf
    ensures var p', s' := p.Complete(ts, t, cat, name).0, s.Complete(ts, t, cat, name).0;
            && RowsFollow(p'.rows, s'.rows, f, group) && |f| == |p'.rows|
            && forall x <- group :: StackFollows(p', s', f, x)
  {
    hide Owned, RowsFollow, SameSlices, CloseUnmatched, StackFollows, Match, Stacks.Complete;
    CloseThrough(p, s, f, group, t, ts);
    var stack, other := CloseUnmatched(p.rows, p.Stack(t), ts), CloseUnmatched(s.rows, s.Stack(t), ts);
    MatchSame(p.rows, stack, s.rows, other, cat, name);
    EndedRows(p, s, f, group, stack, other, ts, cat, name);
    CompleteParts(p, ts, t, cat, name);
    CompleteParts(s, ts, t, cat, name);
    LeftThrough(f, stack, Match(p.rows, stack, cat, name));
    hide Left, Through;
    var p', s' := p.Complete(ts, t, cat, name).0, s.Complete(ts, t, cat, name).0;
    forall x <- group ensures StackFollows(p', s', f, x) {
      StackReplaced(p, s, f, p', s', f, t, x);
    }
  }

  lemma StartOutside(p: Stacks, s: Stacks, f: seq<nat>, group: set<U32>, ts: nat, dur: int, t: U32, cat: DataIndex,
                     name: DataIndex)
    requires Follows(p, s, f, group) && t !in group
    ensures Follows(p, s.Start(ts, dur, t, cat, name).0, f, group)
  {
    OwnedStart(s, ts, dur, t, cat, name);
    hide Owned, CloseUnmatched;
    var s' := s.Start(ts, dur, t, cat, name).0;
    forall x <- group ensures StackFollows(p, s', f, x) {
      assert StackFollows(p, s, f, x);
    }
  }

  lemma CompleteOutside(p: Stacks, s: Stacks, f: seq<nat>, group: set<U32>, ts: nat, t: U32, cat: DataIndex,
                        name: DataIndex)
    requires Follows(p, s, f, group) && t !in group
    ensures Follows(p, s.Complete(ts, t, cat, name).0, f, group)
  {
    OwnedComplete(s, ts, t, cat, name);
    var s' := s.Complete(ts, t, cat, name).0;
    assert forall i | 0 <= i < |s.rows| && s.rows[i].itid != t :: s'.rows[i] == s.rows[i];
    hide Owned, CloseUnmatched;
    forall x <- group ensures StackFollows(p, s', f, x) {
      assert StackFollows(p, s, f, x);
    }
  }

  lemma ArgsRowSame(p: Stacks, s: Stacks, f: seq<nat>, group: set<U32>, t: U32, cat: DataIndex, name: DataIndex)
    requires Follows(p, s, f, group) && t in group
    ensures p.ArgsRow(t, cat, name).Some? <==> s.ArgsRow(t, cat, name).Some?
  {
    FollowsSame(p, s, f, group, t);
    MatchSame(p.rows, p.Stack(t), s.rows, s.Stack(t), cat, name);
    assert StackFollows(p, s, f, t);
  }

  // ---------- events of the group and of others ----------

  /** The pending maps look the same to the group. */
  ghost predicate MapsFollow(p: State, s: State, group: set<U32>, ids: set<U64>) {
    && (forall tx <- ids :: (tx in s.waiting <==> tx in p.waiting) && (tx in s.oneWay <==> tx in p.oneWay))
    && (forall tx <- ids :: tx in s.needReply <==> tx in p.needReply)
    && (forall tx <- ids | tx in p.needReply :: s.needReply[tx] == p.needReply[tx] && p.needReply[tx] in group)
    && (forall t <- group :: t in s.replyTo <==> t in p.replyTo)
    && (forall t <- group | t in p.replyTo :: s.replyTo[t] == p.replyTo[t])
  }

  /** State s looks to the group like state p. */
  ghost predicate Like(p: State, s: State, f: seq<nat>, group: set<U32>, ids: set<U64>) {
    Follows(p.stacks, s.stacks, f, group) && MapsFollow(p, s, group, ids)
  }

  /** What a run adds to the numbering: the rows that s has added. */
  ghost predicate Extends(f: seq<nat>, f': seq<nat>, n: nat) {
    f <= f' && forall i | |f| <= i < |f'| :: n <= f'[i]
  }

  lemma SendReplyInside(p: State, s: State, f: seq<nat>, group: set<U32>, ids: set<U64>, ts: nat, t: U32, tx: U64,
                        dest: U32)
    requires Like(p, s, f, group, ids) && p.InRange() && s.InRange() && t in group && tx in ids
    ensures Like(p.SendReply(ts, t, tx, dest), s.SendReply(ts, t, tx, dest), f, group, ids)
  {
    hide Follows, Stacks.Complete;
    CompleteInside(p.stacks, s.stacks, f, group, ts, t, INVALID_U64, INVALID_U64);
  }

  lemma SendCallInside(p: State, s: State, f: seq<nat>, group: set<U32>, ids: set<U64>, ts: nat, t: U32, tx: U64,
                       isOneWay: bool)
    requires Like(p, s, f, group, ids) && p.InRange() && s.InRange() && t in group && tx in ids
    ensures Like(p.SendCall(ts, t, tx, isOneWay), s.SendCall(ts, t, tx, isOneWay), f + [|s.stacks.rows|], group, ids)
  {
    hide Follows, Stacks.Start;
    StartInside(p.stacks, s.stacks, f, group, ts, if isOneWay then 0 else OPEN, t, BINDER,
                if isOneWay then ASYNC_SEND else TRANSACTION);
  }

  lemma ReceiveCallInside(p: State, s: State, f: seq<nat>, group: set<U32>, ids: set<U64>, ts: nat, t: U32, tx: U64)
    requires Like(p, s, f, group, ids) && p.InRange() && s.InRange() && t in group && tx in ids && tx in p.needReply
    ensures Like(p.ReceiveCall(ts, t, tx), s.ReceiveCall(ts, t, tx), f + [|s.stacks.rows|], group, ids)
  {
    hide Follows, Stacks.Start, Stacks.ArgsRow;
    StartInside(p.stacks, s.stacks, f, group, ts, OPEN, t, BINDER, REPLY);
    ArgsRowSame(p.stacks.Start(ts, OPEN, t, BINDER, REPLY).0, s.stacks.Start(ts, OPEN, t, BINDER, REPLY).0,
                f + [|s.stacks.rows|], group, p.needReply[tx], BINDER, TRANSACTION);
  }

  lemma ReceiveInside(p: State, s: State, f: seq<nat>, group: set<U32>, ids: set<U64>, ts: nat, t: U32, tx: U64)
    returns (f': seq<nat>)
    requires Like(p, s, f, group, ids) && p.InRange() && s.InRange() && t in group && tx in ids
    ensures Like(p.Receive(ts, t, tx), s.Receive(ts, t, tx), f', group, ids) && Extends(f, f', |s.stacks.rows|)
  {
    hide Follows, Stacks.Start, Stacks.Complete, State.ReceiveCall;
    f' := f;
    if tx in p.waiting {
      CompleteInside(p.stacks, s.stacks, f, group, ts, t, INVALID_U64, INVALID_U64);
    } else if tx in p.needReply {
      f' := f + [|s.stacks.rows|];
      ReceiveCallInside(p, s, f, group, ids, ts, t, tx);
    } else if tx in p.oneWay {
      f' := f + [|s.stacks.rows|];
      StartInside(p.stacks, s.stacks, f, group, ts, 0, t, BINDER, ASYNC_RECEIVE);
    }
  }

  /** An event of the group does the same to both states. */
  lemma StepInside(p: State, s: State, f: seq<nat>, group: set<U32>, ids: set<U64>, e: Event) returns (f': seq<nat>)
    requires Like(p, s, f, group, ids) && p.InRange() && s.InRange() && e.tid in group && e.tx in ids
    ensures Like(Step(p, e), Step(s, e), f', group, ids) && Extends(f, f', |s.stacks.rows|)
  {
    hide Like, State.SendReply, State.SendCall, State.Receive;
    match e
    case Send(ts, t, tx, dest, isReply, isOneWay) =>
      if isReply {
        SendReplyInside(p, s, f, group, ids, ts, t, tx, dest);
        f' := f;
      } else {
        SendCallInside(p, s, f, group, ids, ts, t, tx, isOneWay);
        f' := f + [|s.stacks.rows|];
      }
    case Receive(ts, t, tx) => f' := ReceiveInside(p, s, f, group, ids, ts, t, tx);
  }

  /** An event of another thread is not seen by the group. */
  lemma StepOutside(p: State, s: State, f: seq<nat>, group: set<U32>, ids: set<U64>, e: Event)
    requires Like(p, s, f, group, ids) && s.InRange() && e.tid !in group && e.tx !in ids
    ensures Like(p, Step(s, e), f, group, ids)
  {
    hide Follows, Stacks.Start, Stacks.Complete, Stacks.ArgsRow;
    var a, b := p.stacks, s.stacks;
    match e
    case Send(ts, t, _, _, isReply, isOneWay) =>
      if isReply {
        CompleteOutside(a, b, f, group, ts, t, INVALID_U64, INVALID_U64);
      } else {
        StartOutside(a, b, f, group, ts, if isOneWay then 0 else OPEN, t, BINDER,
                     if isOneWay then ASYNC_SEND else TRANSACTION);
      }
    case Receive(ts, t, tx) =>
      if tx in s.waiting {
        CompleteOutside(a, b, f, group, ts, t, INVALID_U64, INVALID_U64);
      } else if tx in s.needReply {
        StartOutside(a, b, f, group, ts, OPEN, t, BINDER, REPLY);
      } else if tx in s.oneWay {
        StartOutside(a, b, f, group, ts, 0, t, BINDER, ASYNC_RECEIVE);
      }
  }

  lemma StepGrows(s: State, e: Event)
    requires s.InRange()
    ensures |s.stacks.rows| <= |Step(s, e).stacks.rows|
  {
    hide CloseUnmatched, Match;
  }

  /**
   * What binder traffic does to a group of threads that share no transaction with others is what the group's
   * own events would do alone, up to the numbers of the rows.
   */
  lemma {:induction false} GroupRunsAlone(p: State, s: State, f: seq<nat>, group: set<U32>, ids: set<U64>,
                                          es: seq<Event>)
    returns (f': seq<nat>)
    requires Like(p, s, f, group, ids) && p.InRange() && s.InRange() && Apart(group, ids, es)
    ensures Like(Run(p, Of(group, es)), Run(s, es), f', group, ids) && Extends(f, f', |s.stacks.rows|)
    decreases |es|
  {
    hide Like, Step;
    f' := f;
    if es != [] {
      var e, rest := es[0], es[1..];
      StepGrows(s, e);
      if e.tid in group {
        var mid := StepInside(p, s, f, group, ids, e);
        f' := GroupRunsAlone(Step(p, e), Step(s, e), mid, group, ids, rest);
        assert Of(group, es)[1..] == Of(group, rest);
      } else {
        StepOutside(p, s, f, group, ids, e);
        f' := GroupRunsAlone(p, Step(s, e), f, group, ids, rest);
        assert Of(group, es) == Of(group, rest);
      }
    }
  }

  // ---------- trees of calls among other traffic ----------

  /** The events of a call and its inner calls. */
  function Events(c: Call): seq<Event>
    decreases c
  {
    [Send(c.sent, c.caller, c.tx, c.callee, false, false), Receive(c.received, c.callee, c.tx)]
    + EventsOf(c.inner)
    + [Send(c.replied, c.callee, c.reply, c.caller, true, false), Receive(c.returned, c.caller, c.reply)]
  }

  function EventsOf(calls: seq<Call>): seq<Event>
    decreases calls
  {
    if calls == [] then [] else Events(calls[0]) + EventsOf(calls[1..])
  }

  lemma {:induction false} RunParts(s: State, es: seq<Event>, more: seq<Event>)
    requires s.InRange()
    ensures Run(s, es + more) == Run(Run(s, es), more)
    decreases |es|
  {
    hide Step;
    if es == [] {
      assert es + more == more;
    } else {
      assert (es + more)[1..] == es[1..] + more;
      RunParts(Step(s, es[0]), es[1..], more);
    }
  }

  lemma RunOne(s: State, e: Event)
    requires s.InRange()
    ensures Run(s, [e]) == Step(s, e)
  {
    hide Step;
    assert [e][1..] == [];
  }

  lemma RunTwo(s: State, a: Event, b: Event)
    requires s.InRange()
    ensures Run(s, [a, b]) == Step(Step(s, a), b)
  {
    hide Run, Step;
    assert [a, b] == [a] + [b];
    RunParts(s, [a], [b]);
    RunOne(s, a);
    RunOne(Step(s, a), b);
  }

  lemma {:induction false} RunsCall(s: State, c: Call)
    requires s.InRange()
    ensures Run(s, Events(c)) == Process(s, c)
    decreases c
  {
    hide Run;
    var first, last := Send(c.sent, c.caller, c.tx, c.callee, false, false), Receive(c.returned, c.caller, c.reply);
    var enter := [first, Receive(c.received, c.callee, c.tx)];
    var leave := [Send(c.replied, c.callee, c.reply, c.caller, true, false), last];
    RunTwo(s, enter[0], enter[1]);
    RunParts(s, enter + EventsOf(c.inner), leave);
    RunParts(s, enter, EventsOf(c.inner));
    RunsCalls(Enter(s, c), c.inner);
    RunTwo(ProcessAll(Enter(s, c), c.inner), leave[0], leave[1]);
  }

  lemma {:induction false} RunsCalls(s: State, calls: seq<Call>)
    requires s.InRange()
    ensures Run(s, EventsOf(calls)) == ProcessAll(s, calls)
    decreases calls
  {
    hide Process, Events;
    if calls != [] {
      RunsCall(s, calls[0]);
      RunParts(s, Events(calls[0]), EventsOf(calls[1..]));
      RunsCalls(Process(s, calls[0]), calls[1..]);
    }
  }

  function Threads(c: Call): set<U32> {
    {c.caller} + Callees(c)
  }

  /** The events es make up the tree of calls c and other traffic, which shares no thread and no id with it. */
  ghost predicate Contains(s: State, es: seq<Event>, c: Call) {
    && Prepared(s, c.sent, Height(c), Ids(c)) && WellFormed(c)
    && Apart(Threads(c), Ids(c), es) && Of(Threads(c), es) == Events(c)
  }

  /** At first nothing is renumbered. */
  lemma LikeItself(s: State, group: set<U32>, ids: set<U64>)
    requires s.InRange() && Forest(s.stacks) && ids !! s.needReply.Keys
    ensures Like(s, s, seq(|s.stacks.rows|, i => i), group, ids)
  {
    var f := seq(|s.stacks.rows|, i => i);
    forall i | 0 <= i < |f| && s.stacks.rows[i].IsSync() ensures Renamed(s.stacks.rows[i], s.stacks.rows[i], f) {
      assert ParentOk(s.stacks.rows, i);
    }
    forall t <- group ensures StackFollows(s.stacks, s.stacks, f, t) {
    }
  }

  lemma ReadyFollows(p: Stacks, s: Stacks, f: seq<nat>, group: set<U32>, t: U32)
    requires Follows(p, s, f, group) && t in group
    ensures p.InRange() && s.InRange() && |f| == |p.rows| && Ready(s, t) == Through(f, Ready(p, t))
  {
    FollowsSame(p, s, f, group, t);
    assert StackFollows(p, s, f, t);
  }

  /** The rows that f numbers. */
  function Picked(rows: seq<SliceRow>, f: seq<nat>): (out: seq<SliceRow>)
    requires forall i | 0 <= i < |f| :: f[i] < |rows|
  {
    seq(|f|, i requires 0 <= i < |f| => rows[f[i]])
  }

  lemma {:induction false} LaidFollows(rows: seq<SliceRow>, out: seq<SliceRow>, f: seq<nat>, group: set<U32>, c: Call,
                                       n: nat)
    requires RowsFollow(rows, out, f, group) && Laid(rows, c, n) && WellFormed(c) && Threads(c) <= group
    ensures Laid(Picked(out, f), c, n)
    decreases c
  {
    hide RowsFollow;
    ShowsFollow(rows, out, f, group, n);
    ShowsFollow(rows, out, f, group, n + 1);
    LaidAllFollow(rows, out, f, group, c.inner, c.callee, c.received, c.replied, n + 2);
  }

  lemma {:induction false} LaidAllFollow(rows: seq<SliceRow>, out: seq<SliceRow>, f: seq<nat>, group: set<U32>,
                                         calls: seq<Call>, caller: U32, from: nat, to: nat, n: nat)
    requires RowsFollow(rows, out, f, group) && LaidAll(rows, calls, n) && InSequence(calls, caller, from, to)
    requires caller in group && CalleesOf(calls) <= group
    ensures (forall i | 0 <= i < |f| :: f[i] < |out|) && LaidAll(Picked(out, f), calls, n)
    decreases calls
  {
    ShowsFollow(rows, out, f, group, 0);
    hide RowsFollow, Laid;
    if calls != [] {
      LaidFollows(rows, out, f, group, calls[0], n);
      LaidAllFollow(rows, out, f, group, calls[1..], caller, calls[0].returned, to, n + 2 * Size(calls[0]));
    }
  }

  lemma ShowsFollow(rows: seq<SliceRow>, out: seq<SliceRow>, f: seq<nat>, group: set<U32>, n: nat)
    requires RowsFollow(rows, out, f, group)
    ensures |f| == |rows| && forall i | 0 <= i < |f| :: f[i] < |out|
    ensures n < |rows| && rows[n].IsSync() && rows[n].itid in group ==>
              Picked(out, f)[n] == rows[n].(parent := Picked(out, f)[n].parent)
  {
  }

  /** The slices of a tree of calls among the rows of a run from s to out, where f numbers them after the old rows. */
  ghost predicate LaidAmong(s: State, out: State, c: Call, f: seq<nat>) {
    var n := |s.stacks.rows|;
    && |f| == n + 2 * Size(c) && Ascending(f, |out.stacks.rows|) && (forall i | 0 <= i < n :: f[i] == i)
    && Laid(Picked(out.stacks.rows, f), c, n)
  }

  /** What a tree of calls leaves behind on its threads and under its ids: nothing. */
  ghost predicate RestoredFor(s: State, out: State, c: Call)
    requires s.InRange() && out.InRange()
  {
    && (forall t <- Threads(c) :: Ready(out.stacks, t) == Ready(s.stacks, t))
    && (forall tx <- Ids(c) :: tx !in out.waiting && tx !in out.needReply && (tx in out.oneWay <==> tx in s.oneWay))
    && (forall t <- Callees(c) :: t !in out.replyTo)
    && (c.caller !in Callees(c) ==> (c.caller in out.replyTo <==> c.caller in s.replyTo))
    && (c.caller !in Callees(c) && c.caller in s.replyTo ==> out.replyTo[c.caller] == s.replyTo[c.caller])
  }

  /**
   * A tree of synchronous calls restores the stacks of its threads and its pending entries, and lays out its slices,
   * whatever other threads do in between.
   */
  lemma CallAmongOthers(s: State, es: seq<Event>, c: Call) returns (f: seq<nat>)
    requires s.InRange() && Contains(s, es, c)
    ensures RestoredFor(s, Run(s, es), c) && LaidAmong(s, Run(s, es), c, f)
  {
    hide Run, Process, Restored, Like, Laid, WellFormed, Forest, Ready;
    var group, ids, n := Threads(c), Ids(c), |s.stacks.rows|;
    var start := seq(n, i => i);
    LikeItself(s, group, ids);
    f := GroupRunsAlone(s, s, start, group, ids, es);
    RunsCall(s, c);
    CallRestores(s, c);
    var p, out := Process(s, c), Run(s, es);
    LikeRestored(s, p, out, f, c);
    LikeLaid(p, out, f, c, n);
    assert forall i | 0 <= i < n :: f[i] == start[i];
  }

  lemma LikeRestored(s: State, p: State, out: State, f: seq<nat>, c: Call)
    requires s.InRange() && p.InRange() && out.InRange() && Like(p, out, f, Threads(c), Ids(c))
    requires Restored(s, p, Callees(c), c.returned) && Ids(c) !! s.waiting && Ids(c) !! s.needReply.Keys
    requires |s.stacks.rows| <= |f| && forall i | 0 <= i < |s.stacks.rows| :: f[i] == i
    ensures RestoredFor(s, out, c)
  {
    hide Follows, Forest, Ready, AllBefore;
    forall t <- Threads(c) ensures Ready(out.stacks, t) == Ready(s.stacks, t) {
      ReadyFollows(p.stacks, out.stacks, f, Threads(c), t);
      ReadyInRange(s.stacks, t);
    }
  }

  lemma ReadyInRange(s: Stacks, t: U32)
    requires s.InRange()
    ensures RowNumbers(s.rows, Ready(s, t))
  {
  }

  lemma LikeLaid(p: State, out: State, f: seq<nat>, c: Call, n: nat)
    requires Like(p, out, f, Threads(c), Ids(c)) && Laid(p.stacks.rows, c, n) && WellFormed(c)
    ensures |f| == |p.stacks.rows| && Ascending(f, |out.stacks.rows|) && Laid(Picked(out.stacks.rows, f), c, n)
  {
    LaidFollows(p.stacks.rows, out.stacks.rows, f, Threads(c), c, n);
  }

  // ---------- nothing but trees ----------

  lemma {:induction false} IdUntouched(s: State, es: seq<Event>, tx: U64)
    requires s.InRange() && forall k | 0 <= k < |es| :: es[k].tx != tx
    ensures var out := Run(s, es);
            && (tx in out.waiting <==> tx in s.waiting) && (tx in out.oneWay <==> tx in s.oneWay)
            && (tx in out.needReply <==> tx in s.needReply)
            && (tx in s.needReply ==> out.needReply[tx] == s.needReply[tx])
    decreases |es|
  {
    if es != [] {
      StepIdUntouched(s, es[0], tx);
      hide Step;
      IdUntouched(Step(s, es[0]), es[1..], tx);
    }
  }

  lemma StepIdUntouched(s: State, e: Event, tx: U64)
    requires s.InRange() && e.tx != tx
    ensures var out := Step(s, e);
            && (tx in out.waiting <==> tx in s.waiting) && (tx in out.oneWay <==> tx in s.oneWay)
            && (tx in out.needReply <==> tx in s.needReply)
            && (tx in s.needReply ==> out.needReply[tx] == s.needReply[tx])
  {
    hide Stacks.Start, Stacks.Complete, Stacks.ArgsRow;
  }

  lemma ThreadUntouched(s: State, es: seq<Event>, t: U32)
    requires s.InRange() && Forest(s.stacks) && forall k | 0 <= k < |es| :: es[k].tid != t
    ensures var out := Run(s, es);
            && Ready(out.stacks, t) == Ready(s.stacks, t) && (t in out.replyTo <==> t in s.replyTo)
            && (t in s.replyTo ==> out.replyTo[t] == s.replyTo[t])
  {
    hide Run, Follows, Forest, Ready;
    LikeItself(s, {t}, {});
    var start := seq(|s.stacks.rows|, i => i);
    var f := GroupRunsAlone(s, s, start, {t}, {}, es);
    NoneOf({t}, es);
    assert Run(s, []) == s by { RunNone(s); }
    ReadyFollows(s.stacks, Run(s, es).stacks, f, {t}, t);
    ReadyInRange(s.stacks, t);
    assert forall i | 0 <= i < |start| :: f[i] == start[i];
  }

  lemma RunNone(s: State)
    requires s.InRange()
    ensures Run(s, []) == s
  {
  }

  lemma {:induction false} NoneOf(group: set<U32>, es: seq<Event>)
    requires forall k | 0 <= k < |es| :: es[k].tid !in group
    ensures Of(group, es) == []
    decreases |es|
  {
    if es != [] { NoneOf(group, es[1..]); }
  }

  /** Thread t takes part in one of the trees. */
  ghost predicate Busy(calls: seq<Call>, t: U32) {
    exists c <- calls :: t in Threads(c)
  }

  /** All events are of threads that take part in the trees. */
  ghost predicate Covered(es: seq<Event>, calls: seq<Call>) {
    forall k | 0 <= k < |es| :: Busy(calls, es[k].tid)
  }

  lemma {:induction false} CalleesAmong(calls: seq<Call>, t: U32)
    ensures t in CalleesOf(calls) <==> exists c <- calls :: t in Callees(c)
  {
    hide Callees;
    if calls != [] {
      CalleesAmong(calls[1..], t);
      if c :| c in calls && t in Callees(c) { assert c == calls[0] || c in calls[1..]; }
    }
  }

  lemma ThreadRestored(s: State, es: seq<Event>, calls: seq<Call>, t: U32)
    requires s.InRange() && Forest(s.stacks) && Covered(es, calls) && forall c <- calls :: Contains(s, es, c)
    ensures var out := Run(s, es);
            && Ready(out.stacks, t) == Ready(s.stacks, t)
            && (t in out.replyTo <==> t in s.replyTo && t !in CalleesOf(calls))
            && (t in out.replyTo ==> out.replyTo[t] == s.replyTo[t])
  {
    hide Run, Forest, Ready, Contains, CalleesOf, LaidAmong, Callees;
    CalleesAmong(calls, t);
    if c :| c in calls && t in Callees(c) {
      var _ := CallAmongOthers(s, es, c);
    } else if Busy(calls, t) {
      var c :| c in calls && t in Threads(c);
      var _ := CallAmongOthers(s, es, c);
    } else {
      ThreadUntouched(s, es, t);
    }
  }

  lemma IdRestored(s: State, es: seq<Event>, calls: seq<Call>, tx: U64)
    requires s.InRange() && Covered(es, calls) && forall c <- calls :: Contains(s, es, c)
    ensures var out := Run(s, es);
            && (tx in out.waiting <==> tx in s.waiting) && (tx in out.oneWay <==> tx in s.oneWay)
            && (tx in out.needReply <==> tx in s.needReply)
            && (tx in s.needReply ==> out.needReply[tx] == s.needReply[tx])
  {
    hide Run, Forest, Ready, LaidAmong, WellFormed, Ids, Events, Of, Callees;
    if c :| c in calls && tx in Ids(c) {
      var _ := CallAmongOthers(s, es, c);
    } else {
      forall k | 0 <= k < |es| ensures es[k].tx != tx {
        assert Busy(calls, es[k].tid);
        var c :| c in calls && es[k].tid in Threads(c);
        assert Contains(s, es, c);
      }
      IdUntouched(s, es, tx);
    }
  }

  /**
   * Any number of trees of synchronous calls, interleaved in any way on disjoint threads, restore every stack and
   * all pending maps together, and each tree finds its slices laid out among the new rows.
   */
  lemma CallsInterleave(s: State, es: seq<Event>, calls: seq<Call>)
    requires s.InRange() && Forest(s.stacks) && Covered(es, calls) && forall c <- calls :: Contains(s, es, c)
    ensures var out := Run(s, es);
            && (forall t: U32 :: Ready(out.stacks, t) == Ready(s.stacks, t))
            && out.waiting == s.waiting && out.needReply == s.needReply && out.oneWay == s.oneWay
            && out.replyTo == s.replyTo - CalleesOf(calls)
            && forall c <- calls :: exists f :: LaidAmong(s, out, c, f)
  {
    hide Run, Forest, Ready, Contains, CalleesOf, LaidAmong, Covered;
    var out := Run(s, es);
    forall t: U32
      ensures Ready(out.stacks, t) == Ready(s.stacks, t)
      ensures t in out.replyTo <==> t in s.replyTo && t !in CalleesOf(calls)
      ensures t in out.replyTo ==> out.replyTo[t] == s.replyTo[t]
    {
      ThreadRestored(s, es, calls, t);
    }
    forall tx: U64
      ensures (tx in out.waiting <==> tx in s.waiting) && (tx in out.oneWay <==> tx in s.oneWay)
      ensures tx in out.needReply <==> tx in s.needReply
      ensures tx in s.needReply ==> out.needReply[tx] == s.needReply[tx]
    {
      IdRestored(s, es, calls, tx);
    }
    forall c <- calls ensures exists f :: LaidAmong(s, out, c, f) {
      var f := CallAmongOthers(s, es, c);
    }
    assert out.replyTo == s.replyTo - CalleesOf(calls);
  }
}
