/** The slices of each thread form a forest, whatever the interleaving over threads. */
module SliceForest {
  import opened MachineWords
  import opened SliceFilter

  // ---------- the forest ----------

  /** A root has depth 0; a child lies one level below its parent, inside it, on the same thread. */
  ghost predicate ParentOk(rows: seq<SliceRow>, r: nat)
    requires r < |rows|
  {
    match rows[r].parent
    case None => rows[r].depth == 0
    case Some(p) =>
      && p < r && rows[p].IsSync() && rows[p].itid == rows[r].itid && rows[r].depth == rows[p].depth + 1
      && rows[p].ts <= rows[r].ts
      && (!rows[p].IsOpen() ==> !rows[r].IsOpen() && rows[r].End() <= rows[p].End())
  }

  ghost predicate Parents(rows: seq<SliceRow>) {
    forall r {:trigger ParentOk(rows, r)} | 0 <= r < |rows| && rows[r].IsSync() :: ParentOk(rows, r)
  }

  /** Of two slices of a thread under the same parent (or both roots), the first ends before the second starts. */
  ghost predicate Siblings(rows: seq<SliceRow>) {
    forall q, r | 0 <= q < r < |rows| && rows[q].IsSync() && rows[r].IsSync()
                  && rows[q].itid == rows[r].itid && rows[q].parent == rows[r].parent ::
      !rows[q].IsOpen() && rows[q].End() <= rows[r].ts
  }

  /** A stack holds one slice of its thread per depth, all open, except that the top may be a point. */
  ghost predicate StackOk(rows: seq<SliceRow>, t: U32, stack: seq<nat>) {
    && RowNumbers(rows, stack)
    && (forall k | 0 <= k < |stack| :: rows[stack[k]].IsSync() && rows[stack[k]].itid == t && rows[stack[k]].depth == k)
    && (forall k | 0 <= k < |stack| - 1 :: rows[stack[k]].IsOpen())
    && (stack != [] ==> rows[stack[|stack| - 1]].IsOpen() || rows[stack[|stack| - 1]].dur == 0)
  }

  /** Every open slice is on its thread's stack, at its depth. */
  ghost predicate OpenStacked(s: Stacks) {
    forall r | 0 <= r < |s.rows| && s.rows[r].IsSync() && s.rows[r].IsOpen() :: OnStack(s, r)
  }

  ghost predicate OnStack(s: Stacks, r: nat)
    requires r < |s.rows|
  {
    var stack := s.Stack(s.rows[r].itid);
    s.rows[r].depth < |stack| && stack[s.rows[r].depth] == r
  }

  ghost predicate Forest(s: Stacks) {
    s.InRange() && Parents(s.rows) && Siblings(s.rows) && OpenStacked(s)
    && forall t <- s.stackOf :: StackOk(s.rows, t, s.stackOf[t])
  }

  /** No slice of thread t starts or ends after `now`, and none has a negative duration. */
  ghost predicate Before(rows: seq<SliceRow>, t: U32, now: nat) {
    forall r | 0 <= r < |rows| && rows[r].IsSync() && rows[r].itid == t ::
      rows[r].ts <= now && (!rows[r].IsOpen() ==> 0 <= rows[r].dur && rows[r].End() <= now)
  }

  // ---------- what is left of a stack ----------

  /** The open slices of a stack: all of it, or all but the point on top. */
  function OpenPart(rows: seq<SliceRow>, stack: seq<nat>): (out: seq<nat>)
    requires RowNumbers(rows, stack)
    ensures out <= stack
  {
    if stack != [] && !rows[stack[|stack| - 1]].IsOpen() then stack[..|stack| - 1] else stack
  }

  lemma {:induction false} CloseFromOpen(rows: seq<SliceRow>, stack: seq<nat>, ts: nat, i: int, incomplete: bool)
    requires RowNumbers(rows, stack) && -1 <= i < |stack|
    requires forall k | 0 <= k <= i :: rows[stack[k]].IsOpen()
    ensures CloseFrom(rows, stack, ts, i, incomplete) == stack
    decreases i + 1
  {
    if 0 <= i {
      CloseFromOpen(rows, stack, ts, i - 1, true);
    }
  }

  /** On a well-formed stack CloseUnMatchedSlice removes exactly the point on top. */
  lemma CloseIsOpenPart(rows: seq<SliceRow>, t: U32, stack: seq<nat>, ts: nat)
    requires StackOk(rows, t, stack) && Before(rows, t, ts)
    ensures CloseUnmatched(rows, stack, ts) == OpenPart(rows, stack)
    ensures StackOk(rows, t, OpenPart(rows, stack))
    ensures forall k | 0 <= k < |OpenPart(rows, stack)| :: rows[OpenPart(rows, stack)[k]].IsOpen()
  {
    var n := |stack| - 1;
    if stack == [] {
    } else if rows[stack[n]].IsOpen() {
      CloseFromOpen(rows, stack, ts, n, false);
    } else {
      CloseFromOpen(rows, stack[..n], ts, n - 1, false);
    }
  }

  /** Without category and name the match is the topmost open slice. */
  lemma MatchAnyIsTop(rows: seq<SliceRow>, stack: seq<nat>)
    requires RowNumbers(rows, stack) && forall k | 0 <= k < |stack| :: rows[stack[k]].IsOpen()
    ensures Match(rows, stack, INVALID_U64, INVALID_U64) == |stack| - 1
  {
  }

  // ---------- beginning a slice ----------

  /** The stack after pending points have been dropped. */
  function Ready(s: Stacks, t: U32): seq<nat>
    requires s.InRange()
  {
    OpenPart(s.rows, s.Stack(t))
  }

  lemma StartShape(s: Stacks, ts: nat, dur: int, t: U32, cat: DataIndex, name: DataIndex)
    requires Forest(s) && Before(s.rows, t, ts) && |Ready(s, t)| < MAX_DEPTH
    ensures var stack := Ready(s, t);
            var parent := if stack == [] then None else Some(stack[|stack| - 1]);
            s.Start(ts, dur, t, cat, name) ==
              (Stacks(s.rows + [SliceRow(ts, dur, t, cat, name, |stack|, parent, None)],
                  s.stackOf[t := stack + [|s.rows|]]),
               Some(|s.rows|))
  {
    CloseIsOpenPart(s.rows, t, s.Stack(t), ts);
  }

  /** No open slice lies directly above the ready stack. */
  lemma NothingAbove(s: Stacks, t: U32, r: nat)
    requires Forest(s) && r < |s.rows| && s.rows[r].IsSync() && s.rows[r].IsOpen() && s.rows[r].itid == t
    ensures s.rows[r].depth < |Ready(s, t)| && Ready(s, t)[s.rows[r].depth] == r
  {
  }

  lemma StartParents(s: Stacks, row: SliceRow)
    requires Forest(s) && Before(s.rows, row.itid, row.ts) && row.IsSync()
    requires var stack := Ready(s, row.itid);
             row.depth == |stack| && row.parent == (if stack == [] then None else Some(stack[|stack| - 1]))
    ensures Parents(s.rows + [row])
  {
    var out := s.rows + [row];
    CloseIsOpenPart(s.rows, row.itid, s.Stack(row.itid), row.ts);
    forall r | 0 <= r < |out| && out[r].IsSync() ensures ParentOk(out, r) {
      if r < |s.rows| {
        assert ParentOk(s.rows, r);
      }
    }
  }

  lemma StartSiblings(s: Stacks, row: SliceRow)
    requires Forest(s) && Before(s.rows, row.itid, row.ts) && row.IsSync()
    requires var stack := Ready(s, row.itid);
             row.depth == |stack| && row.parent == (if stack == [] then None else Some(stack[|stack| - 1]))
    ensures Siblings(s.rows + [row])
  {
    CloseIsOpenPart(s.rows, row.itid, s.Stack(row.itid), row.ts);
    forall q | 0 <= q < |s.rows| && s.rows[q].IsSync() && s.rows[q].itid == row.itid && s.rows[q].parent == row.parent
      ensures !s.rows[q].IsOpen() && s.rows[q].End() <= row.ts
    {
      assert ParentOk(s.rows, q);
      if s.rows[q].IsOpen() {
        NothingAbove(s, row.itid, q);
      }
    }
  }

  lemma StartStacked(s: Stacks, row: SliceRow)
    requires Forest(s) && Before(s.rows, row.itid, row.ts) && row.IsSync() && (row.IsOpen() || row.dur == 0)
    requires var stack := Ready(s, row.itid);
             row.depth == |stack| && row.parent == (if stack == [] then None else Some(stack[|stack| - 1]))
    ensures var stack := Ready(s, row.itid) + [|s.rows|];
            StackOk(s.rows + [row], row.itid, stack)
            && OpenStacked(Stacks(s.rows + [row], s.stackOf[row.itid := stack]))
  {
    CloseIsOpenPart(s.rows, row.itid, s.Stack(row.itid), row.ts);
    var out := Stacks(s.rows + [row], s.stackOf[row.itid := Ready(s, row.itid) + [|s.rows|]]);
    forall r | 0 <= r < |out.rows| && out.rows[r].IsSync() && out.rows[r].IsOpen()
      ensures out.rows[r].depth < |out.Stack(out.rows[r].itid)| && out.Stack(out.rows[r].itid)[out.rows[r].depth] == r
    {
      if r < |s.rows| && out.rows[r].itid == row.itid {
        NothingAbove(s, row.itid, r);
      }
    }
  }

  lemma OtherStackGrows(rows: seq<SliceRow>, row: SliceRow, t: U32, stack: seq<nat>)
    requires StackOk(rows, t, stack)
    ensures StackOk(rows + [row], t, stack)
  {
  }

  lemma StartForest(s: Stacks, ts: nat, dur: int, t: U32, cat: DataIndex, name: DataIndex)
    requires Forest(s) && Before(s.rows, t, ts) && |Ready(s, t)| < MAX_DEPTH && (dur == OPEN || dur == 0)
    ensures Forest(s.Start(ts, dur, t, cat, name).0)
  {
    hide StackOk, Parents, Siblings, OpenStacked;
    StartShape(s, ts, dur, t, cat, name);
    var stack := Ready(s, t);
    var row := SliceRow(ts, dur, t, cat, name, |stack|, if stack == [] then None else Some(stack[|stack| - 1]), None);
    StartParents(s, row);
    StartSiblings(s, row);
    StartStacked(s, row);
    forall x <- s.stackOf ensures StackOk(s.rows + [row], x, s.stackOf[x]) {
      OtherStackGrows(s.rows, row, x, s.stackOf[x]);
    }
  }

  lemma StartBefore(s: Stacks, ts: nat, dur: int, t: U32, cat: DataIndex, name: DataIndex)
    requires Forest(s) && Before(s.rows, t, ts) && |Ready(s, t)| < MAX_DEPTH && (dur == OPEN || dur == 0)
    ensures Before(s.Start(ts, dur, t, cat, name).0.rows, t, ts)
  {
    StartShape(s, ts, dur, t, cat, name);
  }

  // ---------- ending a slice ----------

  /** The table with row r closed at ts. */
  function Closed(rows: seq<SliceRow>, r: nat, ts: nat): seq<SliceRow>
    requires r < |rows|
  {
    rows[r := rows[r].(dur := ts - rows[r].ts)]
  }

  lemma CompleteShape(s: Stacks, ts: nat, t: U32)
    requires Forest(s) && Before(s.rows, t, ts)
    ensures var stack := Ready(s, t);
            s.Complete(ts, t, INVALID_U64, INVALID_U64) ==
            if t !in s.stackOf then (s, None)
            else if stack == [] then (Stacks(s.rows, s.stackOf[t := []]), None)
            else (Stacks(Closed(s.rows, stack[|stack| - 1], ts), s.stackOf[t := stack[..|stack| - 1]]),
              Some(stack[|stack| - 1]))
  {
    CloseIsOpenPart(s.rows, t, s.Stack(t), ts);
    MatchAnyIsTop(s.rows, Ready(s, t));
  }

  /** The top of the ready stack is open, and everything below it in the forest has ended. */
  ghost predicate IsTop(s: Stacks, t: U32, r: nat)
    requires s.InRange()
  {
    Ready(s, t) != [] && r == Ready(s, t)[|Ready(s, t)| - 1]
  }

  lemma TopIsOpen(s: Stacks, t: U32, r: nat)
    requires Forest(s) && IsTop(s, t, r)
    ensures r < |s.rows| && s.rows[r].IsSync() && s.rows[r].IsOpen() && s.rows[r].itid == t
    ensures s.rows[r].depth == |Ready(s, t)| - 1
  {
    hide Parents, Siblings, OpenStacked;
    assert t in s.stackOf && StackOk(s.rows, t, s.stackOf[t]);
  }

  lemma TopChildEnded(s: Stacks, t: U32, r: nat, c: nat)
    requires Forest(s) && IsTop(s, t, r) && c < |s.rows| && s.rows[c].IsSync() && s.rows[c].parent == Some(r)
    ensures !s.rows[c].IsOpen() && s.rows[c].itid == t
  {
    TopIsOpen(s, t, r);
    hide Siblings, StackOk, OpenStacked;
    assert ParentOk(s.rows, c);
    if s.rows[c].IsOpen() {
      NothingAbove(s, t, c);
    }
  }

  lemma EndParents(s: Stacks, ts: nat, t: U32, r: nat)
    requires Forest(s) && Before(s.rows, t, ts) && IsTop(s, t, r)
    ensures r < |s.rows| && Parents(Closed(s.rows, r, ts))
  {
    hide StackOk, OpenStacked, Siblings;
    TopIsOpen(s, t, r);
    var out := Closed(s.rows, r, ts);
    forall c | 0 <= c < |out| && out[c].IsSync() ensures ParentOk(out, c) {
      assert ParentOk(s.rows, c);
      if s.rows[c].parent == Some(r) {
        TopChildEnded(s, t, r, c);
      }
    }
  }

  lemma EndSiblings(s: Stacks, ts: nat, t: U32, r: nat)
    requires Forest(s) && IsTop(s, t, r)
    ensures r < |s.rows| && Siblings(Closed(s.rows, r, ts))
  {
    hide StackOk, OpenStacked, Parents;
    TopIsOpen(s, t, r);
  }

  lemma EndStacked(s: Stacks, ts: nat, t: U32, r: nat)
    requires Forest(s) && Before(s.rows, t, ts) && IsTop(s, t, r)
    ensures var stack := Ready(s, t)[..|Ready(s, t)| - 1];
            StackOk(Closed(s.rows, r, ts), t, stack)
            && OpenStacked(Stacks(Closed(s.rows, r, ts), s.stackOf[t := stack]))
  {
    hide Parents, Siblings, OnStack, OpenPart;
    TopIsOpen(s, t, r);
    ShorterStackOk(s, ts, t, r);
    hide StackOk;
    var out := Stacks(Closed(s.rows, r, ts), s.stackOf[t := Ready(s, t)[..|Ready(s, t)| - 1]]);
    forall x | 0 <= x < |out.rows| && out.rows[x].IsSync() && out.rows[x].IsOpen() ensures OnStack(out, x) {
      StillStacked(s, ts, t, r, x);
    }
  }

  lemma ShorterStackOk(s: Stacks, ts: nat, t: U32, r: nat)
    requires Forest(s) && Before(s.rows, t, ts) && IsTop(s, t, r)
    ensures r < |s.rows| && StackOk(Closed(s.rows, r, ts), t, Ready(s, t)[..|Ready(s, t)| - 1])
  {
    hide Parents, Siblings, OpenStacked;
    TopIsOpen(s, t, r);
    CloseIsOpenPart(s.rows, t, s.Stack(t), ts);
  }

  /** An open slice other than the top keeps its place when the top is taken off. */
  lemma StillStacked(s: Stacks, ts: nat, t: U32, r: nat, x: nat)
    requires Forest(s) && IsTop(s, t, r) && r < |s.rows| && x < |s.rows| && x != r && s.rows[x].IsSync()
             && s.rows[x].IsOpen()
    ensures OnStack(Stacks(Closed(s.rows, r, ts), s.stackOf[t := Ready(s, t)[..|Ready(s, t)| - 1]]), x)
  {
    hide Parents, Siblings, StackOk, OpenPart;
    if s.rows[x].itid == t {
      NothingAbove(s, t, x);
    } else {
      assert OnStack(s, x);
    }
  }

  lemma OtherStackEnds(rows: seq<SliceRow>, r: nat, ts: nat, t: U32, stack: seq<nat>)
    requires StackOk(rows, t, stack) && r < |rows| && rows[r].itid != t
    ensures StackOk(Closed(rows, r, ts), t, stack)
  {
  }

  lemma DropPoint(s: Stacks, ts: nat, t: U32)
    requires Forest(s) && Before(s.rows, t, ts)
    ensures Forest(Stacks(s.rows, s.stackOf[t := Ready(s, t)]))
  {
    hide Parents, Siblings, OnStack, OpenPart;
    OpenPartOk(s, ts, t);
    hide StackOk;
    var out := Stacks(s.rows, s.stackOf[t := Ready(s, t)]);
    forall x | 0 <= x < |out.rows| && out.rows[x].IsSync() && out.rows[x].IsOpen() ensures OnStack(out, x) {
      StaysStacked(s, t, x);
    }
  }

  lemma OpenPartOk(s: Stacks, ts: nat, t: U32)
    requires Forest(s) && Before(s.rows, t, ts)
    ensures StackOk(s.rows, t, Ready(s, t))
  {
    hide Parents, Siblings, OpenStacked;
    CloseIsOpenPart(s.rows, t, s.Stack(t), ts);
  }

  lemma StaysStacked(s: Stacks, t: U32, x: nat)
    requires Forest(s) && x < |s.rows| && s.rows[x].IsSync() && s.rows[x].IsOpen()
    ensures OnStack(Stacks(s.rows, s.stackOf[t := Ready(s, t)]), x)
  {
    hide Parents, Siblings, StackOk, OpenPart;
    if s.rows[x].itid == t {
      NothingAbove(s, t, x);
    } else {
      assert OnStack(s, x);
    }
  }

  lemma CompleteForest(s: Stacks, ts: nat, t: U32)
    requires Forest(s) && Before(s.rows, t, ts)
    ensures Forest(s.Complete(ts, t, INVALID_U64, INVALID_U64).0)
  {
    hide StackOk, Parents, Siblings, OpenStacked;
    CompleteShape(s, ts, t);
    if t in s.stackOf {
      if Ready(s, t) == [] {
        DropPoint(s, ts, t);
      } else {
        var r := Ready(s, t)[|Ready(s, t)| - 1];
        TopIsOpen(s, t, r);
        EndParents(s, ts, t, r);
        EndSiblings(s, ts, t, r);
        EndStacked(s, ts, t, r);
        forall x <- s.stackOf | x != t ensures StackOk(Closed(s.rows, r, ts), x, s.stackOf[x]) {
          OtherStackEnds(s.rows, r, ts, x, s.stackOf[x]);
        }
      }
    }
  }

  lemma CompleteBefore(s: Stacks, ts: nat, t: U32)
    requires Forest(s) && Before(s.rows, t, ts)
    ensures Before(s.Complete(ts, t, INVALID_U64, INVALID_U64).0.rows, t, ts)
  {
    hide StackOk, Parents, Siblings, OpenStacked;
    CompleteShape(s, ts, t);
    if t in s.stackOf && Ready(s, t) != [] {
      TopIsOpen(s, t, Ready(s, t)[|Ready(s, t)| - 1]);
    }
  }
}
