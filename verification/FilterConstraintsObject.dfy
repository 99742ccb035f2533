/** The constraint list as an object: built up by the planner, printed, and read back into a new object. */
module FilterConstraintsObject {
  import opened MachineWords
  import opened Decimal
  import opened FilterConstraints

  lemma AppendEntry(s: string, ps: seq<Entry>, i: nat)
    requires i < |ps|
    ensures s + (" " + Printed(ps[i].col)) + (" " + Printed(ps[i].byte)) + Entries(ps[i + 1..]) == s + Entries(ps[i..])
  {
    hide Printed;
    assert ps[i..][1..] == ps[i + 1..];
  }

  lemma NoMoreEntries(s: string, ps: seq<Entry>)
    ensures s + Entries(ps[|ps|..]) == s
  {
  }

  class Constraints {
    var constraints: seq<Constraint>
    var orderBys: seq<OrderBy>

    constructor ()
      ensures constraints == [] && orderBys == []
    {
      constraints, orderBys := [], [];
    }

    method AddConstraint(idx: int, col: I32, op: U8, isSupport: bool)
      modifies this`constraints
      ensures constraints == old(constraints) + [Constraint(idx, col, op, isSupport)]
    {
      constraints := constraints + [Constraint(idx, col, op, isSupport)];
    }

    method AddOrderBy(col: I32, desc: U8)
      modifies this`orderBys
      ensures orderBys == old(orderBys) + [OrderBy(col, desc)]
    {
      orderBys := orderBys + [OrderBy(col, desc)];
    }

    method ToString() returns (idxStr: string)
      ensures idxStr == Text(OfConstraints(constraints), OfOrderBys(orderBys))
    {
      hide Printed, Entries;
      ghost var cs, os := OfConstraints(constraints), OfOrderBys(orderBys);
      idxStr := "C" + Printed(|constraints|);
      ghost var head := idxStr;
      var i := 0;
      assert cs[0..] == cs;
      while i < |constraints|
        invariant i <= |constraints| && idxStr + Entries(cs[i..]) == head + Entries(cs)
      {
        AppendEntry(idxStr, cs, i);
        idxStr := idxStr + (" " + Printed(constraints[i].col));
        idxStr := idxStr + (" " + Printed(constraints[i].op));
        i := i + 1;
      }
      NoMoreEntries(idxStr, cs);
      idxStr := idxStr + (" O" + Printed(|orderBys|));
      head := idxStr;
      i := 0;
      assert os[0..] == os;
      while i < |orderBys|
        invariant i <= |orderBys| && idxStr + Entries(os[i..]) == head + Entries(os)
      {
        AppendEntry(idxStr, os, i);
        idxStr := idxStr + (" " + Printed(orderBys[i].col));
        idxStr := idxStr + (" " + Printed(orderBys[i].desc));
        i := i + 1;
      }
      NoMoreEntries(idxStr, os);
    }

    /** Reads one entry from here on; not ok where the assertion fails. */
    static method GetColAndOp(pNext: string, op0: U8) returns (ok: bool, col: I32, op: U8, rest: string)
      ensures var r := ReadEntry(pNext, op0); ok == r.Some? && (ok ==> r.value == Read(Entry(col, op), rest))
    {
      op := op0;
      var a := Strtol(pNext);
      ok, col, rest := true, Cast32(a.value), a.rest;
      if a.range {
        return;
      }
      if a.rest == pNext {
        ok := false;
        return;
      }
      var b := Strtol(a.rest);
      op, rest := b.value % 256, b.rest;
    }

    /** Appends what the text says; not ok where an assertion fails or the text ends too early. */
    method FromString(idxStr: string) returns (ok: bool)
      modifies this
      ensures ok == Parse(idxStr).Some?
      ensures ok ==> OfConstraints(constraints) == OfConstraints(old(constraints)) + Parse(idxStr).value.constraints
      ensures ok ==> OfOrderBys(orderBys) == OfOrderBys(old(orderBys)) + Parse(idxStr).value.orderBys
      ensures ok ==> forall k | |old(constraints)| <= k < |constraints| ::
                       constraints[k].idx == k - |old(constraints)| && !constraints[k].isSupport
    {
      ok := false;
      if idxStr == [] || idxStr[0] != 'C' {
        return;
      }
      var n := Strtol(idxStr[1..]);
      if n.range {
        return true;
      }
      var op: U8, pNext: string;
      ok, op, pNext := ReadConstraints(n.rest, Count(n.value));
      if !ok {
        return;
      }
      if |pNext| < 2 || pNext[1] != 'O' {
        return false;
      }
      var m := Strtol(pNext[2..]);
      if m.range {
        return true;
      }
      ok := ReadOrderBys(m.rest, Count(m.value), op);
    }

    method ReadConstraints(t: string, count: nat) returns (ok: bool, op: U8, pNext: string)
      modifies this`constraints
      ensures var r := ReadEntries(t, count, 0);
              && ok == r.Some?
              && (ok ==> r.value.byte == op && r.value.rest == pNext)
              && (ok ==> OfConstraints(constraints) == OfConstraints(old(constraints)) + r.value.entries)
      ensures ok ==> forall k | |old(constraints)| <= k < |constraints| ::
                       constraints[k].idx == k - |old(constraints)| && !constraints[k].isSupport
    {
      hide ReadEntries, ReadEntry, OfConstraints, Continues;
      ok, op, pNext := true, 0, t;
      ghost var all, done := ReadEntries(t, count, 0), [];
      var i := 0;
      Starts(all);
      while i < count
        invariant i <= count && |constraints| == |old(constraints)| + i
        invariant Continues(all, done, ReadEntries(pNext, count - i, op))
        invariant OfConstraints(constraints) == OfConstraints(old(constraints)) + done
        invariant forall k | |old(constraints)| <= k < |constraints| ::
                    constraints[k].idx == k - |old(constraints)| && !constraints[k].isSupport
      {
        var col: I32;
        ghost var before := constraints;
        GoesOn(all, done, pNext, count - i, op);
        ok, col, op, pNext := GetColAndOp(pNext, op);
        if !ok {
          return;
        }
        AddConstraint(i, col, op, false);
        OneMoreConstraint(before, constraints[|before|]);
        done := done + [Entry(col, op)];
        i := i + 1;
      }
      ReadAll(all, done, pNext, op);
    }

    method ReadOrderBys(t: string, count: nat, op0: U8) returns (ok: bool)
      modifies this`orderBys
      ensures var r := ReadEntries(t, count, op0);
              ok == r.Some? && (ok ==> OfOrderBys(orderBys) == OfOrderBys(old(orderBys)) + r.value.entries)
    {
      hide ReadEntries, ReadEntry, OfOrderBys, Continues;
      ok := true;
      var op, pNext := op0, t;
      ghost var all, done := ReadEntries(t, count, op0), [];
      var i := 0;
      Starts(all);
      while i < count
        invariant i <= count
        invariant Continues(all, done, ReadEntries(pNext, count - i, op))
        invariant OfOrderBys(orderBys) == OfOrderBys(old(orderBys)) + done
      {
        var col: I32;
        GoesOn(all, done, pNext, count - i, op);
        ok, col, op, pNext := GetColAndOp(pNext, op);
        if !ok {
          return;
        }
        ghost var before := orderBys;
        AddOrderBy(col, op);
        OneMoreOrderBy(before, orderBys[|before|]);
        done := done + [Entry(col, op)];
        i := i + 1;
      }
      ReadAll(all, done, pNext, op);
    }
  }

  lemma OneMoreConstraint(cs: seq<Constraint>, c: Constraint)
    ensures OfConstraints(cs + [c]) == OfConstraints(cs) + [Entry(c.col, c.op)]
  {
  }

  lemma OneMoreOrderBy(os: seq<OrderBy>, o: OrderBy)
    ensures OfOrderBys(os + [o]) == OfOrderBys(os) + [Entry(o.col, o.desc)]
  {
  }

  /** Reading on gives the rest of the whole reading. */
  ghost predicate Continues(all: Option<Reads>, done: seq<Entry>, more: Option<Reads>) {
    all.Some? == more.Some? && (all.Some? ==> all.value == more.value.(entries := done + more.value.entries))
  }

  lemma Starts(all: Option<Reads>)
    ensures Continues(all, [], all)
  {
  }

  lemma GoesOn(all: Option<Reads>, done: seq<Entry>, t: string, n: nat, byte: U8)
    requires n > 0 && Continues(all, done, ReadEntries(t, n, byte))
    ensures var one := ReadEntry(t, byte);
            if one.None? then all.None?
            else Continues(all, done + [one.value.entry], ReadEntries(one.value.rest, n - 1, one.value.entry.byte))
  {
    hide ReadEntry;
    var more := ReadEntries(t, n, byte);
    if more.Some? {
      var one := ReadEntry(t, byte).value;
      var rest := ReadEntries(one.rest, n - 1, one.entry.byte).value;
      assert done + more.value.entries == done + [one.entry] + rest.entries;
    }
  }

  lemma ReadAll(all: Option<Reads>, done: seq<Entry>, t: string, byte: U8)
    requires Continues(all, done, ReadEntries(t, 0, byte))
    ensures all == Some(Reads(done, byte, t))
  {
    assert done + [] == done;
  }
}
