/** Whole runs of the slice filter: stacked and keyed slices in one table, interleaved in any way. */
module SliceRun {
  import opened MachineWords
  import opened SliceFilter
  import opened SliceForest
  import opened SliceKeyed

  /**
   * Begin and End are StartSlice and CompleteSlice without category and name; Point is the zero-length
   * slice of an asynchronous binder call. S, F, G and H are the keyed slices.
   */
  datatype Event =
    | Begin(ts: nat, t: U32, cat: DataIndex, name: DataIndex)
    | End(ts: nat, t: U32)
    | Point(ts: nat, t: U32, cat: DataIndex, name: DataIndex)
    | S(ts: nat, key: Key, cat: DataIndex, parent: nat)
    | F(ts: nat, key: Key)
    | G(ts: nat, key: Key, cat: DataIndex, name: DataIndex)
    | H(ts: nat, key: Key)
  {
    predicate OnThread(x: U32) { (Begin? || End? || Point?) && t == x }
  }

  datatype State = State(stacks: Stacks, pairs: Pairs, piles: Piles)
  {
    ghost predicate InRange() {
      stacks.InRange() && pairs.InRange(|stacks.rows|) && piles.InRange(|stacks.rows|)
    }
  }

  const EMPTY := State(Stacks([], map[]), Pairs(map[], map[], 0), Piles(map[], map[], 0))

  function AppendRow(s: Stacks, row: SliceRow): (out: Stacks)
    requires s.InRange()
    ensures out.InRange()
  {
    s.(rows := s.rows + [row])
  }

  function CloseRow(s: Stacks, r: nat, ts: nat): (out: Stacks)
    requires s.InRange() && r < |s.rows|
    ensures out.InRange()
  {
    s.(rows := Closed(s.rows, r, ts))
  }

  function Step(s: State, e: Event): (out: State)
    requires s.InRange()
    ensures out.InRange()
  {
    match e
    case Begin(ts, t, cat, name) => s.(stacks := s.stacks.Start(ts, OPEN, t, cat, name).0)
    case Point(ts, t, cat, name) => s.(stacks := s.stacks.Start(ts, 0, t, cat, name).0)
    case End(ts, t) => s.(stacks := s.stacks.Complete(ts, t, INVALID_U64, INVALID_U64).0)
    case S(ts, key, cat, parent) =>
      if key in s.pairs.id then s
      else s.(stacks := AppendRow(s.stacks, AsyncRow(ts, key, cat, key.third, Some(parent))),
              pairs := s.pairs.Open(key, |s.stacks.rows|))
    case F(ts, key) =>
      if s.pairs.Find(key).None? then s
      else s.(stacks := CloseRow(s.stacks, s.pairs.Find(key).value, ts), pairs := s.pairs.Close(key))
    case G(ts, key, cat, name) =>
      s.(stacks := AppendRow(s.stacks, AsyncRow(ts, key, cat, name, None)), piles := s.piles.Open(key, |s.stacks.rows|))
    case H(ts, key) =>
      if s.piles.Find(key).None? then s
      else s.(stacks := CloseRow(s.stacks, s.piles.Find(key).value, ts), piles := s.piles.Close(key))
  }

  function Run(events: seq<Event>): (out: State)
    ensures out.InRange()
  {
    if events == [] then EMPTY else Step(Run(events[..|events| - 1]), events[|events| - 1])
  }

  // ---------- the forest over whole runs ----------

  /** The time of thread t's last stacked event. */
  function Clock(events: seq<Event>, t: U32): nat {
    if events == [] then 0
    else if events[|events| - 1].OnThread(t) then events[|events| - 1].ts
    else Clock(events[..|events| - 1], t)
  }

  /** How many slices thread t has begun and not ended. */
  function Nesting(events: seq<Event>, t: U32): nat {
    if events == [] then 0
    else
      var n, e := Nesting(events[..|events| - 1], t), events[|events| - 1];
      if e.Begin? && e.t == t then n + 1 else if e.End? && e.t == t && n > 0 then n - 1 else n
  }

  /** Each thread's time does not go back, and no thread nests slices 255 deep. */
  ghost predicate Orderly(events: seq<Event>) {
    events != [] ==>
      var rest, e := events[..|events| - 1], events[|events| - 1];
      && Orderly(rest)
      && (e.Begin? || e.End? || e.Point? ==> Clock(rest, e.t) <= e.ts)
      && (e.Begin? || e.Point? ==> Nesting(rest, e.t) < MAX_DEPTH)
  }

  lemma BeforeLater(rows: seq<SliceRow>, t: U32, now: nat, later: nat)
    requires Before(rows, t, now) && now <= later
    ensures Before(rows, t, later)
  {
  }

  /** Keyed rows do not belong to the forest. */
  lemma AppendKeepsForest(s: Stacks, row: SliceRow)
    requires Forest(s) && !row.IsSync()
    ensures Forest(AppendRow(s, row))
  {
    forall r | 0 <= r < |s.rows| && s.rows[r].IsSync() ensures ParentOk(s.rows + [row], r) {
      assert ParentOk(s.rows, r);
    }
    forall t <- s.stackOf ensures StackOk(s.rows + [row], t, s.stackOf[t]) {
      OtherStackGrows(s.rows, row, t, s.stackOf[t]);
    }
  }

  lemma CloseKeepsForest(s: Stacks, r: nat, ts: nat)
    requires Forest(s) && r < |s.rows| && !s.rows[r].IsSync()
    ensures Forest(CloseRow(s, r, ts))
  {
    forall x | 0 <= x < |s.rows| && s.rows[x].IsSync() ensures ParentOk(Closed(s.rows, r, ts), x) {
      assert ParentOk(s.rows, x);
    }
    forall t <- s.stackOf ensures StackOk(Closed(s.rows, r, ts), t, s.stackOf[t]) {
    }
  }
}
