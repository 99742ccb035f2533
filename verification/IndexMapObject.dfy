/** The index map as an object: a row range that turns into an explicit row list, and a cursor over it. */
module IndexMapObject {
  import opened MachineWords
  import opened IndexMap

  /** std::lower_bound on [lo, hi): the first row not below v. */
  function LowerBound(times: seq<U64>, lo: nat, hi: nat, v: U64): (k: nat)
    requires lo <= hi <= |times|
    ensures lo <= k <= hi && (forall i | lo <= i < k :: times[i] < v) && (k < hi ==> times[k] >= v)
    decreases hi - lo
  {
    if lo == hi || times[lo] >= v then lo else LowerBound(times, lo + 1, hi, v)
  }

  /** std::upper_bound on [lo, hi): the first row above v. */
  function UpperBound(times: seq<U64>, lo: nat, hi: nat, v: U64): (k: nat)
    requires lo <= hi <= |times|
    ensures lo <= k <= hi && (forall i | lo <= i < k :: times[i] <= v) && (k < hi ==> times[k] > v)
    decreases hi - lo
  {
    if lo == hi || times[lo] > v then lo else UpperBound(times, lo + 1, hi, v)
  }

  ghost predicate Sorted(times: seq<U64>) {
    forall i, j | 0 <= i < j < |times| :: times[i] <= times[j]
  }

  lemma RangeMembers(a: nat, b: nat)
    ensures Ascending(Range(a, b)) && RowsBelow(b, Range(a, b))
    ensures forall r: nat :: r in Range(a, b) <==> a <= r < b
  {
    var rows := Range(a, b);
    forall r: nat ensures r in rows <==> a <= r < b {
      if a <= r < b { assert rows[r - a] == r; }
    }
  }

  /** On a range whose kept rows are consecutive, selecting is shrinking the range. */
  lemma SelectRange(f: Filter, a: nat, b: nat, a': nat, b': nat)
    requires a <= a' <= b' <= b <= f.Size()
    requires forall i | a <= i < b :: f.Keeps(i) <==> a' <= i < b'
    ensures RowsBelow(f.Size(), Range(a, b)) && Select(Range(a, b), f) == Range(a', b')
  {
    hide Ascending, Select, Range;
    RangeMembers(a, b);
    RangeMembers(a', b');
    SelectMembers(Range(a, b), f);
    SelectAscends(Range(a, b), f);
    AscendingUnique(Select(Range(a, b), f), Range(a', b'));
  }

  lemma SelectEqual(f: Filter, a: nat, b: nat)
    requires f.Ts? && f.op.EQ? && Sorted(f.times) && a <= b <= |f.times|
    ensures RowsBelow(f.Size(), Range(a, b))
    ensures var low := LowerBound(f.times, a, b, f.v);
            Select(Range(a, b), f) == Range(low, UpperBound(f.times, low, b, f.v))
  {
    var low := LowerBound(f.times, a, b, f.v);
    SelectRange(f, a, b, low, UpperBound(f.times, low, b, f.v));
  }

  lemma SelectFrom(f: Filter, a: nat, b: nat, w: U64)
    requires f.Ts? && Sorted(f.times) && a <= b <= |f.times|
    requires forall i | 0 <= i < |f.times| :: f.Keeps(i) <==> f.times[i] >= w
    ensures RowsBelow(f.Size(), Range(a, b)) && Select(Range(a, b), f) == Range(LowerBound(f.times, a, b, w), b)
  {
    SelectRange(f, a, b, LowerBound(f.times, a, b, w), b);
  }

  lemma SelectUpTo(f: Filter, a: nat, b: nat, w: U64)
    requires f.Ts? && Sorted(f.times) && a <= b <= |f.times|
    requires forall i | 0 <= i < |f.times| :: f.Keeps(i) <==> f.times[i] <= w
    ensures RowsBelow(f.Size(), Range(a, b)) && Select(Range(a, b), f) == Range(a, UpperBound(f.times, a, b, w))
  {
    SelectRange(f, a, b, a, UpperBound(f.times, a, b, w));
  }

  lemma OtherKeepsAll(rows: seq<nat>, f: Filter)
    requires RowsBelow(f.Size(), rows) && f.Mix? && f.op.OTHER?
    ensures Select(rows, f) == rows
  {
    SelectEverything(rows, f);
  }

  lemma SelectNext(rows: seq<nat>, j: nat, f: Filter)
    requires RowsBelow(f.Size(), rows) && j < |rows|
    ensures Select(rows[..j + 1], f) == Select(rows[..j], f) + if f.Keeps(rows[j]) then [rows[j]] else []
  {
    assert rows[..j + 1][..j] == rows[..j];
  }

  lemma SelectNone(f: Filter)
    ensures Range(0, 0) == [] && Select([], f) == []
  {
  }

  lemma SelectNextInRange(i: nat, f: Filter)
    requires i < f.Size()
    ensures RowsBelow(f.Size(), Range(0, i)) && RowsBelow(f.Size(), Range(0, i + 1))
    ensures Select(Range(0, i + 1), f) == Select(Range(0, i), f) + if f.Keeps(i) then [i] else []
  {
    assert Range(0, i + 1)[..i] == Range(0, i);
  }

  lemma EraseAt(done: seq<nat>, rest: seq<nat>)
    requires rest != []
    ensures var s := done + rest;
            s[|done|] == rest[0] && s[..|done|] + s[|done| + 1..] == done + rest[1..]
                && s == (done + [rest[0]]) + rest[1..]
  {
  }

  /** The rows of a list that lie in a range, in order. */
  function Inside(rows: seq<nat>, from: nat, to: nat): seq<nat> {
    if rows == [] then []
    else
      var r := rows[|rows| - 1];
      Inside(rows[..|rows| - 1], from, to) + if from <= r < to then [r] else []
  }

  /** The rows inside, or all of them if none is. */
  function Narrowed(rows: seq<nat>, from: nat, to: nat): seq<nat> {
    if Inside(rows, from, to) == [] then rows else Inside(rows, from, to)
  }

  /** A time filter on an explicit list: its bounds are found among the first times, as many as the list has rows. */
  function ListAfter(rows: seq<nat>, op: Op, v: U64, times: seq<U64>): seq<nat>
    requires |rows| <= |times|
  {
    match op
    case EQ =>
      var low := LowerBound(times, 0, |rows|, v);
      Narrowed(rows, low, UpperBound(times, low, |rows|, v))
    case GT => Narrowed(rows, LowerBound(times, 0, |rows|, Add64(v, 1)), INVALID_INT32)
    case GE => Narrowed(rows, LowerBound(times, 0, |rows|, v), INVALID_INT32)
    case LE => Narrowed(rows, 0, UpperBound(times, 0, |rows|, Add64(v, 1)))
    case LT => Narrowed(rows, 0, UpperBound(times, 0, |rows|, v))
    case _ => rows
  }

  /** Such a filter can lose a row that satisfies it: the time 7 of row 2 is at most 9. */
  lemma ListFilterLosesRow()
    ensures ListAfter([0, 2], LE, 9, [5, 6, 7]) == [0]
  {
    var rows: seq<nat>, times: seq<U64> := [0, 2], [5, 6, 7];
    assert UpperBound(times, 0, 2, 10) == 2;
    InsideNext(rows, 1, 0, 2);
    InsideNext(rows, 0, 0, 2);
    assert rows[..2] == rows && rows[..0] == [];
  }

  lemma NoneInside(from: nat, to: nat)
    ensures Inside([], from, to) == []
  {
  }

  lemma InsideNext(rows: seq<nat>, k: nat, from: nat, to: nat)
    requires k < |rows|
    ensures Inside(rows[..k + 1], from, to) ==
            Inside(rows[..k], from, to) + if from <= rows[k] < to then [rows[k]] else []
  {
    assert rows[..k + 1][..k] == rows[..k];
  }

  function Reversed(s: seq<nat>): (r: seq<nat>)
    ensures |r| == |s| && forall k | 0 <= k < |s| :: r[k] == s[|s| - 1 - k]
  {
    if s == [] then [] else [s[|s| - 1]] + Reversed(s[..|s| - 1])
  }

  class Cursor {
    /** The number of rows of the table. */
    const n: nat
    var rowIndex: seq<nat>
    var rowIndexBak: seq<nat>
    var start: int
    var end: int
    var current: int
    /** Whether the rows are those in rowIndex rather than a range. */
    var outerIndex: bool
    var empty: bool
    var desc: bool
    var converted: bool

    ghost predicate Valid() reads this {
      && 0 <= start <= end && n <= INVALID_INT32
      && (outerIndex ==> start == 0 && end == |rowIndex| && !empty && RowsBelow(n, rowIndex))
      && (!outerIndex ==> end <= n && rowIndex == [] && !converted && (empty ==> start == 0 && end == n))
    }

    /** Positioned before the first row, going up. */
    ghost predicate Rewound() reads this { !desc && current == start }

    ghost function Rows(): seq<nat>
      requires Valid()
      reads this
    {
      if outerIndex then rowIndex else Range(start, end)
    }

    ghost function Abs(): View
      requires Valid()
      reads this
    {
      View(Rows(), empty)
    }

    constructor (n: nat)
      requires n <= INVALID_INT32
      ensures Valid() && Rewound() && Abs() == View(Range(0, n), true) && this.n == n
    {
      this.n := n;
      rowIndex, rowIndexBak := [], [];
      start, end, current := 0, n, 0;
      outerIndex, empty, desc, converted := false, true, false, false;
    }

    method ConvertToIndexMap()
      requires Valid() && Rewound() && !empty
      modifies this`rowIndex, this`current, this`start, this`end, this`outerIndex, this`converted
      ensures Valid() && Rewound() && outerIndex && Rows() == old(Rows())
    {
      if converted {
        outerIndex := true;
        return;
      }
      converted := true;
      if !outerIndex {
        var i := start;
        while i < end
          invariant 0 <= start <= i <= end <= n && start == old(start) && end == old(end)
          invariant rowIndex == Range(start, i)
        {
          rowIndex := rowIndex + [i];
          i := i + 1;
        }
        current, start := 0, 0;
        end := |rowIndex|;
      }
      outerIndex := true;
    }

    /** A range shrinks; of a list the rows inside stay, or all of them if none is. */
    method Intersect(from: nat, to: nat)
      requires Valid() && Rewound()
      requires !outerIndex ==> from <= end && start <= to && (from <= start || from <= to)
      modifies this`start, this`end, this`current, this`empty, this`rowIndex, this`rowIndexBak
      ensures Valid() && Rewound() && !empty
      ensures !outerIndex ==>
                rowIndex == old(rowIndex) && start == (if from > old(start) then from else old(start))
                && end == if to < old(end) then to else old(end)
      ensures outerIndex ==> rowIndex == Narrowed(old(rowIndex), from, to)
    {
      hide Inside;
      if outerIndex {
        rowIndexBak := [];
        NoneInside(from, to);
        var changed, k := false, 0;
        while k < |rowIndex|
          invariant k <= |rowIndex| && rowIndex == old(rowIndex)
          invariant rowIndexBak == Inside(rowIndex[..k], from, to) && (changed <==> rowIndexBak != [])
          invariant RowsBelow(n, rowIndexBak)
        {
          InsideNext(rowIndex, k, from, to);
          if from <= rowIndex[k] < to {
            changed := true;
            rowIndexBak := rowIndexBak + [rowIndex[k]];
          }
          k := k + 1;
        }
        assert rowIndex[..k] == rowIndex;
        if changed {
          rowIndex := rowIndexBak;
        }
        start, current := 0, 0;
        end := |rowIndex|;
      } else {
        start := if start < from then from else start;
        end := if to < end then to else end;
        current := start;
      }
      empty := false;
    }

    method IntersectEqual(times: seq<U64>, v: U64)
      requires Valid() && Rewound() && |times| == n && end <= n
      modifies this`start, this`end, this`current, this`empty, this`rowIndex, this`rowIndexBak
      ensures Valid() && Rewound() && !empty
      ensures var low := LowerBound(times, old(start), old(end), v);
              var high := UpperBound(times, low, old(end), v);
              && (!outerIndex ==> start == low && end == high && rowIndex == old(rowIndex))
              && (outerIndex ==> rowIndex == Narrowed(old(rowIndex), low, high))
    {
      var low := LowerBound(times, start, end, v);
      var high := UpperBound(times, low, end, v);
      Intersect(low, high);
    }

    method IntersectGreaterEqual(times: seq<U64>, v: U64)
      requires Valid() && Rewound() && |times| == n && end <= n
      modifies this`start, this`end, this`current, this`empty, this`rowIndex, this`rowIndexBak
      ensures Valid() && Rewound() && !empty
      ensures var low := LowerBound(times, old(start), old(end), v);
              && (!outerIndex ==> start == low && end == old(end) && rowIndex == old(rowIndex))
              && (outerIndex ==> rowIndex == Narrowed(old(rowIndex), low, INVALID_INT32))
    {
      var low := LowerBound(times, start, end, v);
      Intersect(low, INVALID_INT32);
    }

    method IntersectLessEqual(times: seq<U64>, v: U64)
      requires Valid() && Rewound() && |times| == n && end <= n
      modifies this`start, this`end, this`current, this`empty, this`rowIndex, this`rowIndexBak
      ensures Valid() && Rewound() && !empty
      ensures var high := UpperBound(times, old(start), old(end), v);
              && (!outerIndex ==> start == old(start) && end == high && rowIndex == old(rowIndex))
              && (outerIndex ==> rowIndex == Narrowed(old(rowIndex), 0, high))
    {
      var high := UpperBound(times, start, end, v);
      Intersect(0, high);
    }

    /** Every operator but ISNOTNULL. On a list the searches compare times only up to the length of the list. */
    method FilterTS(op: Op, v: U64, times: seq<U64>)
      requires Valid() && Rewound() && !op.ISNOTNULL? && |times| == n && end <= n && (!outerIndex ==> Sorted(times))
      modifies this`start, this`end, this`current, this`empty, this`rowIndex, this`rowIndexBak
      ensures Valid() && Rewound()
      ensures !outerIndex ==> Abs() == Apply(old(Abs()), Ts(op, v, times))
      ensures outerIndex ==> rowIndex == ListAfter(old(rowIndex), op, v, times)
    {
      ghost var f, a, b := Ts(op, v, times), start, end;
      hide Select, Range, Sorted, LowerBound, UpperBound, Narrowed;
      var w := if op.GT? || op.LE? then Add64(v, 1) else v;
      match op
      case EQ =>
        IntersectEqual(times, w);
        if !outerIndex { SelectEqual(f, a, b); }
      case GT =>
        IntersectGreaterEqual(times, w);
        if !outerIndex { SelectFrom(f, a, b, w); }
      case GE =>
        IntersectGreaterEqual(times, w);
        if !outerIndex { SelectFrom(f, a, b, w); }
      case LE =>
        IntersectLessEqual(times, w);
        if !outerIndex { SelectUpTo(f, a, b, w); }
      case LT =>
        IntersectLessEqual(times, w);
        if !outerIndex { SelectUpTo(f, a, b, w); }
      case _ =>
    }

    /** The ISNOTNULL operator; the selection becomes an explicit list. */
    method RemoveNullElements(v: U64, times: seq<U64>)
      requires Valid() && Rewound() && |times| == n
      modifies this
      ensures Valid() && Rewound() && outerIndex
      ensures Abs() == Apply(old(Abs()), Ts(ISNOTNULL, v, times))
    {
      hide Range, Select;
      ghost var f := Ts(ISNOTNULL, v, times);
      if !empty {
        ConvertToIndexMap();
        EraseNulls(times, f);
      } else {
        AppendNonNull(times, f);
        empty := false;
      }
      outerIndex := true;
      FixSize();
    }

    method EraseNulls(times: seq<U64>, ghost f: Filter)
      requires f.Ts? && f.op.ISNOTNULL? && f.times == times && RowsBelow(|times|, rowIndex)
      modifies this`rowIndex
      ensures rowIndex == Select(old(rowIndex), f)
    {
      hide Select;
      var i := 0;
      ghost var rows, j, done := rowIndex, 0, [];
      assert Select(rows[..0], f) == [];
      while i < |rowIndex|
        invariant j <= |rows| && RowsBelow(|times|, rows)
        invariant done == Select(rows[..j], f) && i == |done| && rowIndex == done + rows[j..]
        decreases |rowIndex| - i
      {
        SelectNext(rows, j, f);
        EraseAt(done, rows[j..]);
        assert rows[j..][1..] == rows[j + 1..];
        if times[rowIndex[i]] == INVALID_U64 {
          rowIndex := rowIndex[..i] + rowIndex[i + 1..];
        } else {
          i := i + 1;
          done := done + [rows[j]];
        }
        j := j + 1;
      }
      assert rows[..j] == rows;
    }

    method AppendNonNull(times: seq<U64>, ghost f: Filter)
      requires f.Ts? && f.op.ISNOTNULL? && f.times == times && |times| == n && rowIndex == []
      modifies this`rowIndex
      ensures RowsBelow(n, Range(0, n)) && rowIndex == Select(Range(0, n), f)
    {
      hide Range, Select;
      SelectNone(f);
      var i := 0;
      while i < n
        invariant i <= n && RowsBelow(n, Range(0, i)) && rowIndex == Select(Range(0, i), f)
      {
        SelectNextInRange(i, f);
        if times[i] != INVALID_U64 {
          rowIndex := rowIndex + [i];
        }
        i := i + 1;
      }
    }

    method FixSize()
      modifies this`end, this`current
      ensures outerIndex ==> end == |rowIndex| && current == 0
      ensures !outerIndex ==> end == old(end) && current == old(current)
    {
      if outerIndex {
        end := |rowIndex|;
        current := 0;
      }
    }

    method MixRange(f: Filter)
      requires Valid() && Rewound() && f.Mix? && f.Size() == n
      modifies this
      ensures Valid() && Rewound() && Abs() == Apply(old(Abs()), f)
    {
      hide Range, Select, RowsBelow, Filter.Keeps;
      var remove := false;
      if !empty {
        ConvertToIndexMap();
        remove := true;
      }
      rowIndexBak := [];
      if !f.op.OTHER? {
        ProcessData(f, remove);
      } else {
        OtherKeepsAll(Rows(), f);
      }
      empty := false;
    }

    method ProcessData(f: Filter, remove: bool)
      requires Valid() && Rewound() && f.Mix? && f.Size() == n && rowIndexBak == [] && remove == !empty
      requires remove ==> outerIndex
      modifies this`rowIndex, this`rowIndexBak, this`outerIndex, this`end, this`current
      ensures start == 0 && end == |rowIndex| && outerIndex && current == 0 && RowsBelow(n, rowIndex)
      ensures View(rowIndex, false) == Apply(old(Abs()), f)
    {
      hide Range, Select, Filter.Keeps;
      assert Select([], f) == [] by { SelectNone(f); }
      if remove {
        var changed, k := false, 0;
        while k < |rowIndex|
          invariant k <= |rowIndex| && rowIndex == old(rowIndex)
          invariant rowIndexBak == Select(rowIndex[..k], f) && (changed <==> rowIndexBak != [])
        {
          SelectNext(rowIndex, k, f);
          if f.Keeps(rowIndex[k]) {
            changed := true;
            rowIndexBak := rowIndexBak + [rowIndex[k]];
          }
          k := k + 1;
        }
        assert rowIndex[..k] == rowIndex;
        if changed {
          rowIndex := rowIndexBak;
        }
      } else {
        var i := 0;
        while i < n
          invariant i <= n && RowsBelow(n, Range(0, i)) && rowIndex == Select(Range(0, i), f)
        {
          SelectNextInRange(i, f);
          if f.Keeps(i) {
            rowIndex := rowIndex + [i];
          }
          i := i + 1;
        }
      }
      outerIndex := true;
      FixSize();
    }

    method SortBy(descending: bool)
      requires Valid()
      modifies this`current, this`desc
      ensures desc == descending && current == if desc then end - 1 else start
    {
      current := if descending then end - 1 else start;
      desc := descending;
    }

    predicate Eof() reads this {
      if desc then current <= start - 1 else current >= end
    }

    function CurrentRow(): nat
      requires Valid() && start <= current < end
      reads this
    {
      if outerIndex then rowIndex[current] else current
    }

    method Next()
      modifies this`current
      ensures current == if old(Eof()) then old(current) else if desc then old(current) - 1 else old(current) + 1
    {
      if desc {
        if current > start - 1 { current := current - 1; }
      } else {
        if current < end { current := current + 1; }
      }
    }

    /** A whole scan visits the selected rows once each, in the order asked for. */
    method Visit(descending: bool) returns (seen: seq<nat>)
      requires Valid()
      modifies this`current, this`desc
      ensures Valid() && Eof()
      ensures seen == if descending then Reversed(Rows()) else Rows()
    {
      hide Range, Reversed, RowsBelow;
      ghost var rows := Rows();
      ghost var order := if descending then Reversed(rows) else rows;
      assert |order| == end - start;
      SortBy(descending);
      seen := [];
      while !Eof()
        invariant Valid() && desc == descending && Rows() == rows
        invariant if desc then start - 1 <= current < end else start <= current <= end
        invariant |seen| == if desc then end - 1 - current else current - start
        invariant seen == order[..|seen|]
        decreases if desc then current - start + 1 else end - current
      {
        assert CurrentRow() == rows[current - start] == order[|seen|];
        seen := seen + [CurrentRow()];
        Next();
      }
    }

    /** A query: the filters in turn, then a scan. A filter on times that makes a list must be the last of its kind. */
    method Answer(fs: seq<Filter>, descending: bool) returns (seen: seq<nat>)
      requires Valid() && Rewound() && !outerIndex && OfTable(n, fs) && TimesFirst(fs)
      requires forall k | 0 <= k < |fs| && fs[k].Ts? :: Sorted(fs[k].times)
      requires forall j, k | 0 <= j < k < |fs| && fs[k].Ts? :: !fs[j].op.ISNOTNULL?
      modifies this
      ensures RowsBelow(n, old(Rows()))
      ensures var rows := Run(n, old(Abs()), fs).rows; seen == if descending then Reversed(rows) else rows
    {
      hide Sorted, Range, Select, Apply;
      ghost var s := Abs();
      assert RowsBelow(n, s.rows) by { RangeMembers(start, end); }
      var i := 0;
      assert fs[0..] == fs;
      while i < |fs|
        invariant i <= |fs| && Valid() && Rewound() && RowsBelow(n, Rows())
        invariant Run(n, Abs(), fs[i..]) == Run(n, s, fs)
        invariant outerIndex && i < |fs| ==> fs[i].Mix?
      {
        var f := fs[i];
        assert fs[i..][0] == f && fs[i..][1..] == fs[i + 1..];
        if f.Mix? {
          MixRange(f);
        } else if f.op.ISNOTNULL? {
          RemoveNullElements(f.v, f.times);
        } else {
          FilterTS(f.op, f.v, f.times);
        }
        i := i + 1;
      }
      assert fs[i..] == [];
      seen := Visit(descending);
    }
  }
}
