/** Call-stack reconstruction: one stack of slices per thread, over a shared callstack table. */
module SliceFilter {
  import opened MachineWords

  /** Dictionary indexes of categories and names; INVALID_U64 matches anything. */
  type DataIndex = U64

  const OPEN := -1
  const MAX_DEPTH := 255

  /** A callstack row. `cookie` is present for the keyed (asynchronous) slices only. */
  datatype SliceRow = SliceRow(
    ts: nat, dur: int, itid: U32, cat: DataIndex, name: DataIndex, depth: nat, parent: Option<nat>, cookie: Option<int>)
  {
    predicate IsOpen() { dur == OPEN }
    predicate IsSync() { cookie.None? }
    function End(): int { ts + dur }
  }

  /** The callstack table and the stacks, which hold row numbers. */
  datatype Stacks = Stacks(rows: seq<SliceRow>, stackOf: map<U32, seq<nat>>)
  {
    ghost predicate InRange() {
      forall t <- stackOf, k | 0 <= k < |stackOf[t]| :: stackOf[t][k] < |rows|
    }

    function Stack(t: U32): seq<nat> {
      if t in stackOf then stackOf[t] else []
    }

    /** StartSlice: the row number, or nothing when the stack is full (the row is appended all the same). */
    function Start(ts: nat, dur: int, t: U32, cat: DataIndex, name: DataIndex): (out: (Stacks, Option<nat>))
      requires InRange()
      ensures out.0.InRange()
    {
      var stack := CloseUnmatched(rows, Stack(t), ts);
      var parent := if stack == [] then None else Some(stack[|stack| - 1]);
      var row := SliceRow(ts, dur, t, cat, name, if |stack| < MAX_DEPTH then |stack| else 0, parent, None);
      if |stack| < MAX_DEPTH
      then (Stacks(rows + [row], stackOf[t := stack + [|rows|]]), Some(|rows|))
      else (Stacks(rows + [row], stackOf[t := stack]), None)
    }

    /** CompleteSlice: the row closed, if any. */
    function Complete(ts: nat, t: U32, cat: DataIndex, name: DataIndex): (out: (Stacks, Option<nat>))
      requires InRange()
      ensures out.0.InRange()
    {
      if t !in stackOf then (this, None)
      else
        var stack := CloseUnmatched(rows, stackOf[t], ts);
        var i := Match(rows, stack, cat, name);
        if i < 0 then (Stacks(rows, stackOf[t := stack]), None)
        else
          var r := stack[i];
          (Stacks(rows[r := rows[r].(dur := ts - rows[r].ts)],
                  stackOf[t := if i == |stack| - 1 then stack[..i] else stack]), Some(r))
    }

    /** AddArgs: the row that would take the arguments. */
    function ArgsRow(t: U32, cat: DataIndex, name: DataIndex): (r: Option<nat>)
      requires InRange()
    {
      if t !in stackOf then None
      else
        var i := Match(rows, stackOf[t], cat, name);
        if i < 0 then None else Some(stackOf[t][i])
    }
  }

  ghost predicate RowNumbers(rows: seq<SliceRow>, stack: seq<nat>) {
    forall k | 0 <= k < |stack| :: stack[k] < |rows|
  }

  /** CloseUnMatchedSlice: drops slices that have ended from the stack. It changes no row. */
  function CloseUnmatched(rows: seq<SliceRow>, stack: seq<nat>, ts: nat): (out: seq<nat>)
    requires RowNumbers(rows, stack)
    ensures out <= stack
  {
    CloseFrom(rows, stack, ts, |stack| - 1, false)
  }

  /** The loop of CloseUnMatchedSlice from stack position i downwards. */
  function CloseFrom(rows: seq<SliceRow>, stack: seq<nat>, ts: nat, i: int, incomplete: bool): (out: seq<nat>)
    requires RowNumbers(rows, stack) && -1 <= i < |stack|
    ensures out <= stack
    decreases i + 1
  {
    if i < 0 then stack
    else
      var row := rows[stack[i]];
      if row.IsOpen() then CloseFrom(rows, stack, ts, i - 1, true)
      else if incomplete then
        if ts <= row.End() then CloseFrom(rows, stack, ts, i - 1, true)
        else CloseFrom(rows, stack[..i], ts, i - 1, false)
      else if row.End() <= ts then CloseFrom(rows, stack[..|stack| - 1], ts, i - 1, false)
      else CloseFrom(rows, stack, ts, i - 1, false)
  }

  predicate Matches(row: SliceRow, cat: DataIndex, name: DataIndex) {
    && row.IsOpen()
    && (cat == INVALID_U64 || row.cat == INVALID_U64 || cat == row.cat)
    && (name == INVALID_U64 || row.name == INVALID_U64 || name == row.name)
  }

  /** MatchingIncompleteSliceIndex: the topmost open slice with this category and name, or -1. */
  function Match(rows: seq<SliceRow>, stack: seq<nat>, cat: DataIndex, name: DataIndex): (i: int)
    requires RowNumbers(rows, stack)
    ensures -1 <= i < |stack|
    ensures 0 <= i ==> Matches(rows[stack[i]], cat, name)
    ensures forall k | i < k < |stack| :: !Matches(rows[stack[k]], cat, name)
  {
    if stack == [] then -1
    else if Matches(rows[stack[|stack| - 1]], cat, name) then |stack| - 1
    else Match(rows, stack[..|stack| - 1], cat, name)
  }
}
