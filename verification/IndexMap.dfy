/** Row selection for table queries, on values: which rows each filter keeps. */
module IndexMap {
  import opened MachineWords

  /** The number that stands for "no upper bound"; row numbers are 32-bit signed. */
  const INVALID_INT32: nat := 0x7fff_ffff

  datatype Op = EQ | NE | ISNULL | ISNOTNULL | GT | GE | LE | LT | OTHER

  /** A constraint on the sorted time column, or on any other column with that column's "missing" value. */
  datatype Filter =
    | Ts(op: Op, v: U64, times: seq<U64>)
    | Mix(op: Op, value: int, column: seq<int>, invalid: int)
  {
    function Size(): nat {
      if Ts? then |times| else |column|
    }

    function Cell(r: nat): int
      requires r < Size()
    {
      if Ts? then times[r] else column[r]
    }

    /** What the query asks for. */
    predicate Meets(r: nat)
      requires r < Size()
    {
      var x, y := Cell(r), if Ts? then v else value;
      match op
      case EQ => x == y
      case NE => x != y
      case ISNULL => x == if Ts? then INVALID_U64 else invalid
      case ISNOTNULL => x != if Ts? then INVALID_U64 else invalid
      case GT => x > y
      case GE => x >= y
      case LE => x <= y
      case LT => x < y
      case OTHER => true
    }

    /** What the code keeps: other columns exactly; on times the strict bounds go through v + 1 with wrap-around. */
    predicate Keeps(r: nat)
      requires r < Size()
    {
      if Mix? then Meets(r) else
        match op
        case EQ => times[r] == v
        case GT => times[r] >= Add64(v, 1)
        case GE => times[r] >= v
        case LE => times[r] <= Add64(v, 1)
        case LT => times[r] <= v
        case ISNOTNULL => times[r] != INVALID_U64
        case _ => true
    }

    /** A time filter that the index answers without approximation. */
    predicate Exact() {
      Ts? ==> op.EQ? || op.GE? || (op.GT? && v < INVALID_U64) || op.ISNOTNULL? || op.OTHER?
    }
  }

  /** The row numbers of a range. */
  function Range(a: int, b: int): (rows: seq<nat>)
    requires 0 <= a
    ensures |rows| == if a < b then b - a else 0
    ensures forall k | 0 <= k < |rows| :: rows[k] == a + k
    decreases b - a
  {
    if a >= b then [] else Range(a, b - 1) + [b - 1]
  }

  ghost predicate RowsBelow(n: nat, rows: seq<nat>) {
    forall k | 0 <= k < |rows| :: rows[k] < n
  }

  /** The filters are about columns of a table with n rows. */
  ghost predicate OfTable(n: nat, fs: seq<Filter>) {
    forall k | 0 <= k < |fs| :: fs[k].Size() == n
  }

  function Select(rows: seq<nat>, f: Filter): (kept: seq<nat>)
    requires RowsBelow(f.Size(), rows)
    ensures |kept| <= |rows| && RowsBelow(f.Size(), kept)
  {
    if rows == [] then []
    else
      var r := rows[|rows| - 1];
      Select(rows[..|rows| - 1], f) + if f.Keeps(r) then [r] else []
  }

  /** The current selection; it is fresh until a filter has looked at it. */
  datatype View = View(rows: seq<nat>, untouched: bool)

  /** One filter. A column filter that would leave no row of a selection made earlier leaves it as it was. */
  function Apply(s: View, f: Filter): (out: View)
    requires RowsBelow(f.Size(), s.rows)
    ensures RowsBelow(f.Size(), out.rows)
  {
    if f.Ts? then
      if f.op in {EQ, GT, GE, LE, LT, ISNOTNULL} then View(Select(s.rows, f), false) else s
    else if s.untouched || Select(s.rows, f) != [] then View(Select(s.rows, f), false)
    else View(s.rows, false)
  }

  function Run(n: nat, s: View, fs: seq<Filter>): (out: View)
    requires RowsBelow(n, s.rows) && OfTable(n, fs)
    ensures RowsBelow(n, out.rows)
    decreases |fs|
  {
    if fs == [] then s else Run(n, Apply(s, fs[0]), fs[1..])
  }

  // ---------- what Select does ----------

  lemma {:induction false} SelectMembers(rows: seq<nat>, f: Filter)
    requires RowsBelow(f.Size(), rows)
    ensures forall r :: r in Select(rows, f) <==> r in rows && f.Keeps(r)
    decreases |rows|
  {
    if rows != [] {
      var front := rows[..|rows| - 1];
      SelectMembers(front, f);
      assert rows == front + [rows[|rows| - 1]];
    }
  }

  ghost predicate Ascending(rows: seq<nat>) {
    forall j, k | 0 <= j < k < |rows| :: rows[j] < rows[k]
  }

  lemma {:induction false} SelectAscends(rows: seq<nat>, f: Filter)
    requires RowsBelow(f.Size(), rows) && Ascending(rows)
    ensures Ascending(Select(rows, f))
    decreases |rows|
  {
    if rows != [] {
      var front := rows[..|rows| - 1];
      SelectAscends(front, f);
      SelectMembers(front, f);
      var kept := Select(front, f);
      forall k | 0 <= k < |kept| ensures kept[k] < rows[|rows| - 1] {
        assert kept[k] in front;
      }
    }
  }

  // ---------- no row is lost ----------

  /** The code keeps what the query asks for, except for "at most the largest time", which wraps to zero. */
  ghost predicate Wraps(f: Filter) {
    f.Ts? && f.op.LE? && f.v == INVALID_U64
  }

  /** A row that all filters ask for stays selected to the end, unless that wrap-around drops it. */
  lemma {:induction false} NoRowLost(n: nat, s: View, fs: seq<Filter>, r: nat)
    requires RowsBelow(n, s.rows) && OfTable(n, fs) && r in s.rows
    requires forall k | 0 <= k < |fs| :: fs[k].Meets(r)
    ensures r in Run(n, s, fs).rows <==> forall k | 0 <= k < |fs| && Wraps(fs[k]) :: fs[k].Cell(r) == 0
    decreases |fs|
  {
    if fs != [] {
      SelectMembers(s.rows, fs[0]);
      var rest := fs[1..];
      assert forall k | 0 < k < |fs| :: fs[k] == rest[k - 1];
      assert (forall k | 0 <= k < |fs| && Wraps(fs[k]) :: fs[k].Cell(r) == 0) <==>
             (Wraps(fs[0]) ==> fs[0].Cell(r) == 0)
             && forall k | 0 <= k < |rest| && Wraps(rest[k]) :: rest[k].Cell(r) == 0;
      if Wraps(fs[0]) && fs[0].Cell(r) != 0 {
        NeverBack(n, Apply(s, fs[0]), rest, r);
      } else {
        NoRowLost(n, Apply(s, fs[0]), rest, r);
      }
    }
  }

  lemma {:induction false} NeverBack(n: nat, s: View, fs: seq<Filter>, r: nat)
    requires RowsBelow(n, s.rows) && OfTable(n, fs) && r !in s.rows
    ensures r !in Run(n, s, fs).rows
    decreases |fs|
  {
    if fs != [] {
      SelectMembers(s.rows, fs[0]);
      NeverBack(n, Apply(s, fs[0]), fs[1..], r);
    }
  }

  /** Exactly when a kept row is a row asked for, for every operator and value. */
  lemma KeepsIsMeets(f: Filter, r: nat)
    requires r < f.Size()
    ensures (f.Keeps(r) <==> f.Meets(r)) <==>
            (f.Ts? ==>
               match f.op
               case GT => f.v < INVALID_U64
               case LE => if f.v < INVALID_U64 then f.Cell(r) != f.v + 1 else f.Cell(r) == 0
               case LT => f.Cell(r) != f.v
               case NE => f.Cell(r) != f.v
               case ISNULL => f.Cell(r) == INVALID_U64
               case _ => true)
  {
  }

  /** "At most the largest time" drops a row that satisfies it. */
  lemma LargestTimeLosesRows()
    ensures var f := Ts(LE, INVALID_U64, [1]); f.Meets(0) && Run(1, View([0], true), [f]).rows == []
  {
    var f := Ts(LE, INVALID_U64, [1]);
    assert Select([0], f) == Select([], f);
    assert Run(1, View([0], true), [f]) == Run(1, Apply(View([0], true), f), []);
  }

  // ---------- exactness ----------

  /** The rows of a table that every filter asks for, in row order. */
  function SelectAll(n: nat, rows: seq<nat>, fs: seq<Filter>): (kept: seq<nat>)
    requires RowsBelow(n, rows) && OfTable(n, fs)
    ensures RowsBelow(n, kept)
    decreases |fs|
  {
    if fs == [] then rows else SelectAll(n, Select(rows, fs[0]), fs[1..])
  }

  lemma {:induction false} SelectAllMembers(n: nat, rows: seq<nat>, fs: seq<Filter>)
    requires RowsBelow(n, rows) && OfTable(n, fs)
    ensures forall r :: r in SelectAll(n, rows, fs) <==> r in rows && forall k | 0 <= k < |fs| :: fs[k].Keeps(r)
    ensures Ascending(rows) ==> Ascending(SelectAll(n, rows, fs))
    decreases |fs|
  {
    if fs != [] {
      var next := Select(rows, fs[0]);
      SelectMembers(rows, fs[0]);
      if Ascending(rows) { SelectAscends(rows, fs[0]); }
      SelectAllMembers(n, next, fs[1..]);
      forall r ensures r in SelectAll(n, rows, fs) <==> r in rows && forall k | 0 <= k < |fs| :: fs[k].Keeps(r) {
        if r in rows {
          assert (forall k | 0 <= k < |fs| :: fs[k].Keeps(r)) <==>
                 (fs[0].Keeps(r) && forall k | 0 <= k < |fs[1..]| :: fs[1..][k].Keeps(r)) by {
            assert forall k | 0 < k < |fs| :: fs[k] == fs[1..][k - 1];
          }
        }
      }
    }
  }

  /** Time filters come first. */
  ghost predicate TimesFirst(fs: seq<Filter>) {
    forall j, k | 0 <= j < k < |fs| && fs[k].Ts? :: fs[j].Ts?
  }

  /** The selection from which column filters start cutting down: the time range, or the first column's matches. */
  function Base(n: nat, s: View, fs: seq<Filter>): (rows: seq<nat>)
    requires RowsBelow(n, s.rows) && OfTable(n, fs)
    decreases |fs|
  {
    if fs == [] then s.rows
    else if fs[0].Ts? then Base(n, Apply(s, fs[0]), fs[1..])
    else if s.untouched then Select(s.rows, fs[0])
    else s.rows
  }

  lemma {:induction false} SelectEverything(rows: seq<nat>, f: Filter)
    requires RowsBelow(f.Size(), rows) && forall k | 0 <= k < |rows| :: f.Keeps(rows[k])
    ensures Select(rows, f) == rows
    decreases |rows|
  {
    if rows != [] {
      SelectEverything(rows[..|rows| - 1], f);
    }
  }

  lemma {:induction false} SelectAllEmpty(n: nat, fs: seq<Filter>)
    requires OfTable(n, fs)
    ensures SelectAll(n, [], fs) == []
    decreases |fs|
  {
    if fs != [] { SelectAllEmpty(n, fs[1..]); }
  }

  lemma {:induction false} StaysNonempty(n: nat, rows: seq<nat>, fs: seq<Filter>)
    requires RowsBelow(n, rows) && OfTable(n, fs) && rows != [] && forall k | 0 <= k < |fs| :: fs[k].Mix?
    ensures Run(n, View(rows, false), fs).rows != []
    decreases |fs|
  {
    if fs != [] { StaysNonempty(n, Apply(View(rows, false), fs[0]).rows, fs[1..]); }
  }

  /** Cutting a selection down by columns is exact unless it would have emptied it. */
  lemma {:induction false} CutIsExact(n: nat, rows: seq<nat>, fs: seq<Filter>)
    requires RowsBelow(n, rows) && OfTable(n, fs) && forall k | 0 <= k < |fs| :: fs[k].Mix?
    ensures Run(n, View(rows, false), fs).rows == SelectAll(n, rows, fs) <==> rows == [] || SelectAll(n, rows, fs) != []
    decreases |fs|
  {
    if fs != [] {
      var kept, rest := Select(rows, fs[0]), fs[1..];
      if kept == [] {
        SelectAllEmpty(n, rest);
        if rows != [] { StaysNonempty(n, rows, fs); } else { CutIsExact(n, [], rest); }
      } else {
        CutIsExact(n, kept, rest);
      }
    }
  }

  lemma {:induction false} RunIsExact(n: nat, s: View, fs: seq<Filter>)
    requires RowsBelow(n, s.rows) && OfTable(n, fs) && TimesFirst(fs)
    ensures Run(n, s, fs).rows == SelectAll(n, s.rows, fs) <==> Base(n, s, fs) == [] || SelectAll(n, s.rows, fs) != []
    decreases |fs|
  {
    if fs != [] {
      var f, rest := fs[0], fs[1..];
      var kept := Select(s.rows, f);
      if f.Ts? {
        if f.op !in {EQ, GT, GE, LE, LT, ISNOTNULL} { SelectEverything(s.rows, f); }
        RunIsExact(n, Apply(s, f), rest);
      } else {
        assert forall k | 0 <= k < |fs| :: fs[k].Mix?;
        if s.untouched {
          CutIsExact(n, kept, rest);
        } else {
          assert s == View(s.rows, false);
          CutIsExact(n, s.rows, fs);
        }
      }
    }
  }

  lemma {:induction false} RunAscends(n: nat, s: View, fs: seq<Filter>)
    requires RowsBelow(n, s.rows) && OfTable(n, fs) && Ascending(s.rows)
    ensures Ascending(Run(n, s, fs).rows)
    decreases |fs|
  {
    if fs != [] {
      SelectAscends(s.rows, fs[0]);
      RunAscends(n, Apply(s, fs[0]), fs[1..]);
    }
  }

  lemma FrontMembers(a: seq<nat>)
    requires Ascending(a) && a != []
    ensures forall r :: r in a[..|a| - 1] <==> r in a && r != a[|a| - 1]
    ensures Ascending(a[..|a| - 1]) && forall r | r in a :: r <= a[|a| - 1]
  {
    assert a == a[..|a| - 1] + [a[|a| - 1]];
  }

  lemma {:induction false} AscendingUnique(a: seq<nat>, b: seq<nat>)
    requires Ascending(a) && Ascending(b) && forall r :: r in a <==> r in b
    ensures a == b
    decreases |a|
  {
    SameEmptiness(a, b);
    if a != [] {
      FrontMembers(a);
      FrontMembers(b);
      var front, front' := a[..|a| - 1], b[..|b| - 1];
      assert a[|a| - 1] in b && b[|b| - 1] in a;
      forall r: nat ensures r in front <==> r in front' {
        assert r in a <==> r in b;
      }
      AscendingUnique(front, front');
      assert a == front + [a[|a| - 1]];
      assert b == front' + [b[|b| - 1]];
    }
  }

  lemma SameEmptiness(a: seq<nat>, b: seq<nat>)
    requires forall r :: r in a <==> r in b
    ensures a == [] <==> b == []
  {
    if a != [] { assert a[0] in a; }
    if b != [] { assert b[0] in b; }
  }

  /** The rows of the table that every filter asks for. */
  ghost predicate Wanted(n: nat, fs: seq<Filter>, r: nat)
    requires OfTable(n, fs)
  {
    r < n && forall k | 0 <= k < |fs| :: fs[k].Meets(r)
  }

  lemma WantedMembers(n: nat, fs: seq<Filter>)
    requires OfTable(n, fs) && forall k | 0 <= k < |fs| :: fs[k].Exact()
    ensures RowsBelow(n, Range(0, n)) && Ascending(Range(0, n))
    ensures var want := SelectAll(n, Range(0, n), fs);
            && Ascending(want) && (forall r :: r in want <==> Wanted(n, fs, r))
            && (want != [] <==> exists r :: Wanted(n, fs, r))
  {
    var all := Range(0, n);
    SelectAllMembers(n, all, fs);
    var want := SelectAll(n, all, fs);
    hide SelectAll;
    forall r: nat ensures r in want <==> Wanted(n, fs, r) {
      assert r in all <==> r < n by { if r < n { assert all[r] == r; } }
      if r < n {
        forall k | 0 <= k < |fs| ensures fs[k].Keeps(r) <==> fs[k].Meets(r) { KeepsIsMeets(fs[k], r); }
      }
    }
    if want != [] { assert want[0] in want; }
  }

  /** A query answers with exactly the wanted rows, in row order, if and only if some row is wanted or no row was
    * selected before the column filters started cutting down. */
  lemma QueryIsExact(n: nat, fs: seq<Filter>)
    requires OfTable(n, fs) && TimesFirst(fs) && forall k | 0 <= k < |fs| :: fs[k].Exact()
    ensures RowsBelow(n, Range(0, n))
    ensures var rows := Run(n, View(Range(0, n), true), fs).rows;
            && Ascending(rows)
            && ((forall r :: r in rows <==> Wanted(n, fs, r)) <==>
                (exists r :: Wanted(n, fs, r)) || Base(n, View(Range(0, n), true), fs) == [])
  {
    hide Run, SelectAll, Wanted, Base, Ascending, TimesFirst;
    WantedMembers(n, fs);
    var s := View(Range(0, n), true);
    RunAscends(n, s, fs);
    RunIsExact(n, s, fs);
    if forall r :: r in Run(n, s, fs).rows <==> Wanted(n, fs, r) {
      AscendingUnique(Run(n, s, fs).rows, SelectAll(n, s.rows, fs));
    }
  }
}
