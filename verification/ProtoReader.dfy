/** The protobuf wire reader: one field after the other, sorted into a table by field id. */
module ProtoReader {
  import opened MachineWords

  type Byte = x: nat | x < 256

  const MAX_MESSAGE_LENGTH := 0x1000_0000 - 1

  function Pow2(n: nat): (r: nat)
    ensures r > 0
  {
    if n == 0 then 1 else 2 * Pow2(n - 1)
  }

  // ---------- base 128 varints ----------

  /** A decoded number and the offset behind it. */
  datatype Decoded = Decoded(value: U64, next: nat)

  /** The seven low bits of a byte, shifted left; bits beyond the 64th are lost. */
  function Bits(b: Byte, shift: nat): nat
    requires shift < 64
  {
    b % 128 % Pow2(64 - shift) * Pow2(shift)
  }

  /**
   * The loop of VarIntDecode, from a state of its variables. The accumulator is below 2^shift, so the
   * source's bitwise or of disjoint bits is an addition.
   */
  function VarIntFrom(b: seq<Byte>, cursor: nat, acc: nat, shift: nat): (r: Option<Decoded>)
    requires cursor < |b| && shift < 64 && acc < Pow2(shift)
    ensures r.Some? ==> cursor < r.value.next <= |b|
    decreases |b| - cursor
  {
    BitsBound(b[cursor], acc, shift);
    var sum := acc + Bits(b[cursor], shift);
    if b[cursor] < 128 then Some(Decoded(sum, cursor + 1))
    else if cursor + 1 < |b| && shift + 7 < 64 then VarIntFrom(b, cursor + 1, sum, shift + 7)
    else None
  }

  /** VarIntDecode on the bytes from `start` to the end of the buffer. */
  function VarInt(b: seq<Byte>, start: nat): (r: Option<Decoded>)
    requires start < |b|
    ensures r.Some? ==> start < r.value.next <= |b|
  {
    VarIntFrom(b, start, 0, 0)
  }

  lemma {:induction false} Pow2Add(a: nat, b: nat)
    ensures Pow2(a + b) == Pow2(a) * Pow2(b)
  {
    if a > 0 {
      Pow2Add(a - 1, b);
    }
  }

  lemma Pow2At64()
    ensures Pow2(7) == 128 && Pow2(32) == TWO32 && Pow2(64) == TWO64
  {
    assert Pow2(8) == 256;
    Pow2Add(8, 8);
    Pow2Add(16, 16);
    Pow2Add(32, 32);
  }

  lemma {:induction false} Pow2Monotone(a: nat, b: nat)
    requires a <= b
    ensures Pow2(a) <= Pow2(b)
    decreases b
  {
    if a < b {
      Pow2Monotone(a, b - 1);
    }
  }

  /** A number below p, plus x < q multiples of p, is below q multiples of p. */
  lemma Fits(acc: nat, x: nat, p: nat, q: nat)
    requires acc < p && x < q
    ensures acc + x * p < q * p
  {
    assert (x + 1) * p <= q * p;
    assert (x + 1) * p == x * p + p;
  }

  lemma ModBound(y: nat, q: nat)
    requires q > 0
    ensures y % q <= y && y % q < q
  {
  }

  lemma Pow2Split(shift: nat)
    requires shift < 64
    ensures Pow2(64 - shift) * Pow2(shift) == TWO64 && 128 * Pow2(shift) == Pow2(shift + 7)
  {
    Pow2At64();
    Pow2Add(64 - shift, shift);
    Pow2Add(7, shift);
  }

  /** The new bits do not overlap the accumulator and stay within the next shift and 64 bits. */
  lemma BitsBound(b: Byte, acc: nat, shift: nat)
    requires shift < 64 && acc < Pow2(shift)
    ensures acc + Bits(b, shift) < TWO64
    ensures shift + 7 < 64 ==> acc + Bits(b, shift) < Pow2(shift + 7)
  {
    var p, q := Pow2(shift), Pow2(64 - shift);
    var x := b % 128 % q;
    hide Pow2;
    ModBound(b % 128, q);
    Pow2Split(shift);
    Fits(acc, x, p, q);
    Fits(acc, x, p, 128);
  }

  // ---------- one field ----------

  const VARINT := 0
  const FIXED64 := 1
  const LENGTH_DELIMITED := 2
  const FIXED32 := 5

  /** A field as read: for a length-delimited one `value` is the offset of its first byte. */
  datatype Area = Area(id: nat, wireType: nat, value: nat, size: nat)
  {
    predicate Valid() { id != 0 }
  }

  const NO_AREA := Area(0, 0, 0, 0)

  datatype Status = Abort | Skip | Ok

  datatype Parsed = Parsed(status: Status, next: nat, area: Area)

  /** GetNextProtoTag: a one-byte tag is read directly. Nothing may follow a tag at the very end. */
  function NextTag(b: seq<Byte>, start: nat): (r: Option<Decoded>)
    requires start < |b|
    ensures r.Some? ==> start < r.value.next < |b|
  {
    var tag := if b[start] >= 128 then VarInt(b, start) else Some(Decoded(b[start], start + 1));
    if tag.Some? && tag.value.next < |b| then tag else None
  }

  /** An unsigned little-endian number. */
  function LittleEndian(b: seq<Byte>): nat {
    if b == [] then 0 else b[0] + 256 * LittleEndian(b[1..])
  }

  /** The four value parsers; a field that does not parse keeps the status Abort and the old position. */
  function ParseValue(b: seq<Byte>, start: nat, cursor: nat, id: nat, wireType: nat): (r: Parsed)
    requires start < cursor < |b|
    ensures r.status == Abort ==> r.next == start
    ensures r.status != Abort ==> cursor < r.next <= |b|
  {
    var failed := Parsed(Abort, start, Area(id, wireType, 0, 0));
    if wireType == VARINT then
      var v := VarInt(b, cursor);
      if v.None? then failed else Parsed(Ok, v.value.next, Area(id, wireType, v.value.value, 0))
    else if wireType == LENGTH_DELIMITED then
      var v := VarInt(b, cursor);
      if v.None? || v.value.value > |b| - v.value.next then failed
      else
        Parsed(if v.value.value > MAX_MESSAGE_LENGTH then Skip else Ok, v.value.next + v.value.value,
               Area(id, wireType, v.value.next, v.value.value % TWO32))
    else if wireType == FIXED64 then
      if cursor + 8 > |b| then failed
      else Parsed(Ok, cursor + 8, Area(id, wireType, LittleEndian(b[cursor..cursor + 8]), 0))
    else if wireType == FIXED32 then
      if cursor + 4 > |b| then failed
      else Parsed(Ok, cursor + 4, Area(id, wireType, LittleEndian(b[cursor..cursor + 4]), 0))
    else failed
  }

  /** ParseOneDataArea. Every step that does not abort moves the cursor forward, and not past the end. */
  function ParseOne(b: seq<Byte>, start: nat): (r: Parsed)
    requires start <= |b|
    ensures r.status == Abort ==> r.next == start
    ensures r.status != Abort ==> start < r.next <= |b|
    ensures r.status == Ok ==> r.area.Valid()
    ensures r.status == Abort && !r.area.Valid() ==> r.area == NO_AREA
  {
    if start == |b| then Parsed(Abort, start, NO_AREA)
    else
      var tag := NextTag(b, start);
      if tag.None? then Parsed(Abort, start, NO_AREA)
      else
        var id := tag.value.value / 8 % TWO32;
        if id == 0 then Parsed(Abort, start, NO_AREA)
        else if id > 0xFFFF then Parsed(Skip, tag.value.next, NO_AREA)
        else ParseValue(b, start, tag.value.next, id, tag.value.value % 8)
  }

  /** The areas that ParseAllDataAreas reads from a position on, in wire order. */
  function Areas(b: seq<Byte>, start: nat): (areas: seq<Area>)
    requires start <= |b|
    ensures forall i | 0 <= i < |areas| :: areas[i].Valid()
    decreases |b| - start
  {
    var r := ParseOne(b, start);
    if r.status == Abort then []
    else (if r.status == Ok then [r.area] else []) + Areas(b, r.next)
  }

  /** A one-byte tag means the same to VarIntDecode. */
  lemma OneByteTag(b: seq<Byte>, start: nat)
    requires start < |b| && b[start] < 128
    ensures VarInt(b, start) == Some(Decoded(b[start], start + 1))
  {
    Pow2At64();
    assert Pow2(0) == 1;
  }

  // ---------- the table ----------

  /** One slot per field id, holding the latest area; earlier ones are in `overflow`, oldest first. */
  datatype Table = Table(slots: seq<Area>, overflow: seq<Area>)

  function EmptyTable(count: nat): Table {
    Table(seq(count, i => NO_AREA), [])
  }

  function Insert(t: Table, area: Area): (out: Table)
    ensures |out.slots| == |t.slots|
  {
    if area.id >= |t.slots| then t
    else
      var previous := t.slots[area.id];
      Table(t.slots[area.id := area], if previous.Valid() then t.overflow + [previous] else t.overflow)
  }

  function InsertAll(t: Table, areas: seq<Area>): (out: Table)
    ensures |out.slots| == |t.slots|
    decreases areas
  {
    if areas == [] then t else InsertAll(Insert(t, areas[0]), areas[1..])
  }

  /** The areas with this id, in order. */
  function WithId(areas: seq<Area>, id: nat): seq<Area> {
    if areas == [] then []
    else (if areas[0].id == id then [areas[0]] else []) + WithId(areas[1..], id)
  }

  /** What the table holds for an id: the overflow entries with that id, then the slot. */
  function Held(t: Table, id: nat): seq<Area>
    requires id < |t.slots|
  {
    WithId(t.overflow, id) + (if t.slots[id].Valid() then [t.slots[id]] else [])
  }

  ghost predicate SlotsMatch(t: Table) {
    forall i | 0 <= i < |t.slots| && t.slots[i].Valid() :: t.slots[i].id == i
  }

  lemma {:induction false} WithIdAppend(areas: seq<Area>, more: seq<Area>, id: nat)
    ensures WithId(areas + more, id) == WithId(areas, id) + WithId(more, id)
  {
    if areas == [] {
      assert areas + more == more;
    } else {
      var all, head := areas + more, if areas[0].id == id then [areas[0]] else [];
      assert all[0] == areas[0] && all[1..] == areas[1..] + more;
      WithIdAppend(areas[1..], more, id);
      assert WithId(all, id) == head + WithId(all[1..], id) && WithId(areas, id) == head + WithId(areas[1..], id);
    }
  }

  lemma InsertHeld(t: Table, area: Area, id: nat)
    requires SlotsMatch(t) && area.Valid() && id < |t.slots|
    ensures SlotsMatch(Insert(t, area))
    ensures Held(Insert(t, area), id) == Held(t, id) + WithId([area], id)
  {
    if area.id < |t.slots| && t.slots[area.id].Valid() {
      WithIdAppend(t.overflow, [t.slots[area.id]], id);
    }
  }

  lemma {:induction false} InsertAllHeld(t: Table, areas: seq<Area>, id: nat)
    requires SlotsMatch(t) && id < |t.slots| && forall i | 0 <= i < |areas| :: areas[i].Valid()
    ensures Held(InsertAll(t, areas), id) == Held(t, id) + WithId(areas, id)
    decreases areas
  {
    if areas != [] {
      InsertHeld(t, areas[0], id);
      InsertAllHeld(Insert(t, areas[0]), areas[1..], id);
      assert areas == [areas[0]] + areas[1..];
      WithIdAppend([areas[0]], areas[1..], id);
    }
  }

  /** For every id of the table, overflow entries followed by the slot are its occurrences in wire order. */
  lemma TableKeepsWireOrder(b: seq<Byte>, count: nat, id: nat)
    requires id < count
    ensures Held(InsertAll(EmptyTable(count), Areas(b, 0)), id) == WithId(Areas(b, 0), id)
  {
    InsertAllHeld(EmptyTable(count), Areas(b, 0), id);
  }
}
