/** The text form in which query constraints travel through the database engine. */
module FilterConstraints {
  import opened MachineWords
  import opened Decimal

  type I32 = x: int | -0x8000_0000 <= x < 0x8000_0000
  type U8 = x: nat | x < 256

  datatype Constraint = Constraint(idx: int, col: I32, op: U8, isSupport: bool)
  datatype OrderBy = OrderBy(col: I32, desc: U8)

  /** What one entry of either list looks like in the text: a column and a byte. */
  datatype Entry = Entry(col: I32, byte: U8)

  function Cast32(x: int): (r: I32) {
    var m := x % TWO32;
    if m < 0x8000_0000 then m else m - TWO32
  }

  function Entries(ps: seq<Entry>): string {
    if ps == [] then "" else " " + Printed(ps[0].col) + (" " + Printed(ps[0].byte) + Entries(ps[1..]))
  }

  function OfConstraints(cs: seq<Constraint>): seq<Entry> {
    seq(|cs|, k requires 0 <= k < |cs| => Entry(cs[k].col, cs[k].op))
  }

  function OfOrderBys(os: seq<OrderBy>): seq<Entry> {
    seq(|os|, k requires 0 <= k < |os| => Entry(os[k].col, os[k].desc))
  }

  /** C<N> col op ... O<M> col desc ... */
  function Text(cs: seq<Entry>, os: seq<Entry>): string {
    "C" + (Printed(|cs|) + (Entries(cs) + (" O" + (Printed(|os|) + Entries(os)))))
  }

  // ---------- reading ----------

  /** One entry read; the byte stays what it was when the column is out of range. */
  datatype Read = Read(entry: Entry, rest: string)

  /** GetColAndOp; None where an assertion of the source fails. */
  function ReadEntry(t: string, byte: U8): (r: Option<Read>) {
    var a := Strtol(t);
    if a.range then Some(Read(Entry(Cast32(a.value), byte), a.rest))
    else if a.rest == t then None
    else
      var b := Strtol(a.rest);
      Some(Read(Entry(Cast32(a.value), b.value % 256), b.rest))
  }

  datatype Reads = Reads(entries: seq<Entry>, byte: U8, rest: string)

  function ReadEntries(t: string, count: nat, byte: U8): (r: Option<Reads>)
    ensures r.Some? ==> |r.value.entries| == count
    decreases count
  {
    if count == 0 then Some(Reads([], byte, t))
    else
      var one := ReadEntry(t, byte);
      if one.None? then None
      else
        var more := ReadEntries(one.value.rest, count - 1, one.value.entry.byte);
        if more.None? then None else Some(more.value.(entries := [one.value.entry] + more.value.entries))
  }

  datatype Parsed = Parsed(constraints: seq<Entry>, orderBys: seq<Entry>)

  function Count(x: int): nat {
    if Cast32(x) < 0 then 0 else Cast32(x)
  }

  /** FromString; None where an assertion fails or the text ends before the O part. */
  function Parse(t: string): (r: Option<Parsed>) {
    if t == [] || t[0] != 'C' then None
    else
      var n := Strtol(t[1..]);
      if n.range then Some(Parsed([], []))
      else
        var cs := ReadEntries(n.rest, Count(n.value), 0);
        if cs.None? then None else ParseOrder(cs.value)
  }

  function ParseOrder(cs: Reads): (r: Option<Parsed>) {
    if |cs.rest| < 2 || cs.rest[1] != 'O' then None
    else
      var m := Strtol(cs.rest[2..]);
      if m.range then Some(Parsed(cs.entries, []))
      else
        var os := ReadEntries(m.rest, Count(m.value), cs.byte);
        if os.None? then None else Some(Parsed(cs.entries, os.value.entries))
  }

  // ---------- the round trip ----------

  lemma EntriesEnd(ps: seq<Entry>, tail: string)
    requires Ends(tail)
    ensures Ends(Entries(ps) + tail)
  {
    if ps == [] { assert Entries(ps) + tail == tail; }
  }

  lemma ReadEntryBack(p: Entry, byte: U8, tail: string)
    requires Ends(tail)
    ensures ReadEntry(" " + Printed(p.col) + (" " + Printed(p.byte) + tail), byte) == Some(Read(p, tail))
  {
    hide Strtol, Printed;
    var more := " " + Printed(p.byte) + tail;
    StrtolReads(" ", p.col, more);
    StrtolReads(" ", p.byte, tail);
    assert |" " + Printed(p.col) + more| > |more|;
  }

  function First(p: Entry, rest: string): string {
    " " + Printed(p.col) + (" " + Printed(p.byte) + rest)
  }

  /** The text of a list starts with its first entry. */
  lemma EntriesFirst(ps: seq<Entry>, tail: string)
    requires ps != []
    ensures Entries(ps) + tail == First(ps[0], Entries(ps[1..]) + tail)
  {
    hide Printed;
  }

  lemma ReadFirst(p: Entry, rest: string, count: nat, byte: U8)
    requires Ends(rest) && count > 0
    ensures var more := ReadEntries(rest, count - 1, p.byte);
            ReadEntries(First(p, rest), count, byte) ==
            if more.None? then None else Some(more.value.(entries := [p] + more.value.entries))
  {
    hide ReadEntry, Printed;
    ReadEntryBack(p, byte, rest);
  }

  lemma ReadNone(byte: U8, tail: string)
    ensures ReadEntries(Entries([]) + tail, 0, byte) == Some(Reads([], byte, tail))
  {
    assert Entries([]) + tail == tail;
  }

  lemma {:induction false} ReadEntriesBack(ps: seq<Entry>, byte: U8, tail: string)
    requires Ends(tail)
    ensures var r := ReadEntries(Entries(ps) + tail, |ps|, byte);
            r.Some? && r.value.entries == ps && r.value.rest == tail
    decreases |ps|
  {
    hide ReadEntries, Entries, First, Ends;
    if ps == [] {
      ReadNone(byte, tail);
    } else {
      var p, rest := ps[0], ps[1..];
      assert ps == [p] + rest;
      EntriesFirst(ps, tail);
      EntriesEnd(rest, tail);
      ReadFirst(p, Entries(rest) + tail, |ps|, byte);
      ReadEntriesBack(rest, p.byte, tail);
    }
  }

  lemma {:induction false} EntriesJoin(ps: seq<Entry>, qs: seq<Entry>)
    ensures Entries(ps + qs) == Entries(ps) + Entries(qs)
    decreases |ps|
  {
    hide Printed;
    if ps == [] {
      assert ps + qs == qs;
    } else {
      assert (ps + qs)[1..] == ps[1..] + qs;
      EntriesJoin(ps[1..], qs);
    }
  }

  /** Reading the first entries of a list leaves the others. */
  lemma ReadSomeBack(ps: seq<Entry>, count: nat, byte: U8, tail: string)
    requires Ends(tail) && count <= |ps|
    ensures var r := ReadEntries(Entries(ps) + tail, count, byte);
            r.Some? && r.value.entries == ps[..count] && r.value.rest == Entries(ps[count..]) + tail
  {
    hide Entries, ReadEntries, Ends;
    assert ps[..count] + ps[count..] == ps;
    EntriesJoin(ps[..count], ps[count..]);
    var rest := Entries(ps[count..]) + tail;
    assert Entries(ps) + tail == Entries(ps[..count]) + rest;
    EntriesEnd(ps[count..], tail);
    ReadEntriesBack(ps[..count], byte, rest);
  }

  /** Reading the text of two lists gives the two lists back. */
  lemma RoundTrip(cs: seq<Entry>, os: seq<Entry>)
    requires |cs| < 0x8000_0000 && |os| < 0x8000_0000
    ensures Parse(Text(cs, os)) == Some(Parsed(cs, os))
  {
    hide Strtol, Printed, ReadEntries, Entries;
    var tail := " O" + (Printed(|os|) + Entries(os));
    var t := Text(cs, os);
    assert t[1..] == "" + Printed(|cs|) + (Entries(cs) + tail);
    EntriesEnd(cs, tail);
    StrtolReads("", |cs|, Entries(cs) + tail);
    ReadEntriesBack(cs, 0, tail);
    var r := ReadEntries(Entries(cs) + tail, |cs|, 0).value;
    assert tail[2..] == "" + Printed(|os|) + (Entries(os) + "");
    EntriesEnd(os, "");
    StrtolReads("", |os|, Entries(os) + "");
    ReadEntriesBack(os, r.byte, "");
  }

  lemma EntryIsNoOrder(ps: seq<Entry>, tail: string)
    requires ps != []
    ensures var rest := Entries(ps) + tail; |rest| < 2 || rest[1] != 'O'
  {
    assert (Entries(ps) + tail)[1] == Printed(ps[0].col)[0];
  }

  /** A count that does not fit a signed 32-bit number is read as a smaller one. */
  lemma CountShrinks(n: nat)
    ensures if n < 0x8000_0000 then Count(n) == n else Count(n) < n
  {
  }

  /** Too many constraints: the count is out of range, or entries are left where the O part should be. */
  lemma TooManyConstraints(cs: seq<Entry>, os: seq<Entry>)
    requires |cs| >= 0x8000_0000
    ensures Parse(Text(cs, os)) == if |cs| > LONG_MAX then Some(Parsed([], [])) else None
  {
    hide Strtol, Printed, ReadEntries, Entries, Count;
    var tail := " O" + (Printed(|os|) + Entries(os));
    assert Text(cs, os)[1..] == "" + Printed(|cs|) + (Entries(cs) + tail);
    EntriesEnd(cs, tail);
    StrtolReads("", |cs|, Entries(cs) + tail);
    if |cs| <= LONG_MAX {
      CountShrinks(|cs|);
      ReadSomeBack(cs, Count(|cs|), 0, tail);
      EntryIsNoOrder(cs[Count(|cs|)..], tail);
    }
  }

  /** Too many order-bys: all but as many as the wrapped count are dropped. */
  lemma TooManyOrderBys(cs: seq<Entry>, os: seq<Entry>)
    requires |cs| < 0x8000_0000 <= |os|
    ensures Parse(Text(cs, os)) == Some(Parsed(cs, if |os| > LONG_MAX then [] else os[..Count(|os|)]))
  {
    hide Strtol, Printed, ReadEntries, Entries, Count;
    var tail := " O" + (Printed(|os|) + Entries(os));
    assert Text(cs, os)[1..] == "" + Printed(|cs|) + (Entries(cs) + tail);
    EntriesEnd(cs, tail);
    StrtolReads("", |cs|, Entries(cs) + tail);
    CountShrinks(|cs|);
    ReadEntriesBack(cs, 0, tail);
    var r := ReadEntries(Entries(cs) + tail, |cs|, 0).value;
    assert tail[2..] == "" + Printed(|os|) + (Entries(os) + "");
    EntriesEnd(os, "");
    StrtolReads("", |os|, Entries(os) + "");
    if |os| <= LONG_MAX {
      CountShrinks(|os|);
      ReadSomeBack(os, Count(|os|), r.byte, "");
    }
  }

  /** The counts are read as signed 32-bit numbers, and for lists of any length that is the only limit. */
  lemma RoundTripExactly(cs: seq<Entry>, os: seq<Entry>)
    ensures Parse(Text(cs, os)) == Some(Parsed(cs, os)) <==> |cs| < 0x8000_0000 && |os| < 0x8000_0000
  {
    if |cs| >= 0x8000_0000 {
      TooManyConstraints(cs, os);
    } else if |os| >= 0x8000_0000 {
      TooManyOrderBys(cs, os);
      CountShrinks(|os|);
    } else {
      RoundTrip(cs, os);
    }
  }

  /** A printed 64-bit number followed by something else can be told apart from every other such text. */
  lemma NumbersApart(a: int, b: int, rest: string, rest': string)
    requires LONG_MIN <= a <= LONG_MAX && LONG_MIN <= b <= LONG_MAX && Ends(rest) && Ends(rest')
    requires Printed(a) + rest == Printed(b) + rest'
    ensures a == b && rest == rest'
  {
    hide Printed, ReadSigned;
    ReadsPrinted(a, rest);
    ReadsPrinted(b, rest');
  }

  lemma EntryApart(p: Entry, q: Entry, tail: string, tail': string)
    requires Ends(tail) && Ends(tail') && First(p, tail) == First(q, tail')
    ensures p == q && tail == tail'
  {
    hide Printed;
    AfterSpace(Printed(p.col), " " + Printed(p.byte) + tail, Printed(q.col), " " + Printed(q.byte) + tail');
    NumbersApart(p.col, q.col, " " + Printed(p.byte) + tail, " " + Printed(q.byte) + tail');
    AfterSpace(Printed(p.byte), tail, Printed(q.byte), tail');
    NumbersApart(p.byte, q.byte, tail, tail');
  }

  lemma AfterSpace(x: string, rest: string, y: string, rest': string)
    requires " " + x + rest == " " + y + rest'
    ensures x + rest == y + rest'
  {
    assert x + rest == (" " + x + rest)[1..];
    assert y + rest' == (" " + y + rest')[1..];
  }

  lemma {:induction false} EntriesApart(ps: seq<Entry>, qs: seq<Entry>, tail: string, tail': string)
    requires |ps| == |qs| && Ends(tail) && Ends(tail') && Entries(ps) + tail == Entries(qs) + tail'
    ensures ps == qs && tail == tail'
    decreases |ps|
  {
    if ps == [] {
      assert Entries(ps) + tail == tail && Entries(qs) + tail' == tail';
    } else {
      hide Entries, First, Ends;
      EntriesFirst(ps, tail);
      EntriesFirst(qs, tail');
      EntriesEnd(ps[1..], tail);
      EntriesEnd(qs[1..], tail');
      EntryApart(ps[0], qs[0], Entries(ps[1..]) + tail, Entries(qs[1..]) + tail');
      EntriesApart(ps[1..], qs[1..], tail, tail');
      assert ps == [ps[0]] + ps[1..] && qs == [qs[0]] + qs[1..];
    }
  }

  /** A count and its entries. */
  lemma ListApart(ps: seq<Entry>, qs: seq<Entry>, tail: string, tail': string)
    requires Ends(tail) && Ends(tail')
    requires Printed(|ps|) + (Entries(ps) + tail) == Printed(|qs|) + (Entries(qs) + tail')
    ensures ps == qs && tail == tail'
  {
    hide Entries, Digits;
    EntriesEnd(ps, tail);
    EntriesEnd(qs, tail');
    PrintedApart(|ps|, |qs|, Entries(ps) + tail, Entries(qs) + tail');
    EntriesApart(ps, qs, tail, tail');
  }

  /** Different constraint lists, of any lengths, never share a text. */
  lemma TextIsInjective(cs: seq<Entry>, os: seq<Entry>, cs': seq<Entry>, os': seq<Entry>)
    requires Text(cs, os) == Text(cs', os')
    ensures cs == cs' && os == os'
  {
    hide Entries, Printed;
    var tail, tail' := " O" + (Printed(|os|) + Entries(os)), " O" + (Printed(|os'|) + Entries(os'));
    assert Printed(|cs|) + (Entries(cs) + tail) == Text(cs, os)[1..];
    assert Printed(|cs'|) + (Entries(cs') + tail') == Text(cs', os')[1..];
    ListApart(cs, cs', tail, tail');
    assert Printed(|os|) + (Entries(os) + "") == tail[2..];
    assert Printed(|os'|) + (Entries(os') + "") == tail'[2..];
    ListApart(os, os', "", "");
  }
}
