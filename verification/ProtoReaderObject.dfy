/** The reader object: a cursor over the buffer and a growing array of areas. */
module ProtoReaderObject {
  import opened MachineWords
  import opened ProtoReader
  import opened ProtoSearch

  lemma AreasStep(b: seq<Byte>, start: nat, t: Table)
    requires start <= |b|
    ensures var r := ParseOne(b, start);
            InsertAll(t, Areas(b, start)) ==
            match r.status
            case Abort => t
            case Skip => InsertAll(t, Areas(b, r.next))
            case Ok => InsertAll(Insert(t, r.area), Areas(b, r.next))
  {
    var r := ParseOne(b, start);
    hide ParseOne, Insert;
    if r.status == Ok {
      assert ([r.area] + Areas(b, r.next))[1..] == Areas(b, r.next);
    } else if r.status == Skip {
      assert [] + Areas(b, r.next) == Areas(b, r.next);
    }
  }

  class Reader {
    const buffer: seq<Byte>
    var currentRead: nat
    var dataAreas: array<Area>
    const dataAreasCount: nat
    var size: nat

    /** The storage is the table followed by the overflow entries; its length is the source's volume_. */
    ghost predicate Valid() reads this {
      currentRead <= |buffer| && dataAreasCount <= size <= dataAreas.Length
    }

    ghost function Contents(): Table
      requires Valid()
      reads this, dataAreas
    {
      Table(dataAreas[..dataAreasCount], dataAreas[dataAreasCount..size])
    }

    constructor (count: nat, buffer: seq<Byte>)
      ensures Valid() && Contents() == EmptyTable(count) && this.buffer == buffer && dataAreasCount == count
      ensures fresh(dataAreas) && currentRead == 0
    {
      this.buffer := buffer;
      currentRead := 0;
      dataAreas := new Area[count](i => NO_AREA);
      dataAreasCount := count;
      size := count;
    }

    static method VarIntDecode(b: seq<Byte>, start: nat) returns (r: Option<Decoded>)
      requires start < |b|
      ensures r == VarInt(b, start)
    {
      var cursor: nat, temp: nat, shift: nat := start, 0, 0;
      while true
        invariant start <= cursor < |b| && shift < 64 && temp < Pow2(shift)
        invariant VarIntFrom(b, cursor, temp, shift) == VarInt(b, start)
        decreases |b| - cursor
      {
        var currentByte := b[cursor];
        BitsBound(currentByte, temp, shift);
        cursor := cursor + 1;
        temp := temp + Bits(currentByte, shift);
        if currentByte < 128 {
          return Some(Decoded(temp, cursor));
        }
        shift := shift + 7;
        if !(cursor < |b| && shift < 64) {
          return None;
        }
      }
    }

    static method GetNextProtoTag(b: seq<Byte>, start: nat) returns (r: Option<Decoded>)
      requires start < |b|
      ensures r == NextTag(b, start)
    {
      if b[start] >= 128 {
        r := VarIntDecode(b, start);
        if r.None? {
          return;
        }
      } else {
        r := Some(Decoded(b[start], start + 1));
      }
      if r.value.next >= |b| {
        r := None;
      }
    }

    static method ParseOneDataArea(b: seq<Byte>, start: nat) returns (r: Parsed)
      requires start <= |b|
      ensures r == ParseOne(b, start)
    {
      r := Parsed(Abort, start, NO_AREA);
      if start >= |b| {
        return;
      }
      var tag := GetNextProtoTag(b, start);
      if tag.None? {
        return;
      }
      var id := tag.value.value / 8 % TWO32;
      if id == 0 {
        return;
      }
      if id > 0xFFFF {
        r := Parsed(Skip, tag.value.next, NO_AREA);
        return;
      }
      r := ParseValue(b, start, tag.value.next, id, tag.value.value % 8);
    }

    method MoveToLargerHeapStorage()
      requires Valid() && dataAreas.Length > 0
      modifies this`dataAreas
      ensures Valid() && Contents() == old(Contents()) && size < dataAreas.Length && fresh(dataAreas)
    {
      var larger := new Area[2 * dataAreas.Length](i => NO_AREA);
      forall i | 0 <= i < size {
        larger[i] := dataAreas[i];
      }
      assert larger[..size] == dataAreas[..size];
      assert larger[..dataAreasCount] == larger[..size][..dataAreasCount];
      assert larger[dataAreasCount..size] == larger[..size][dataAreasCount..];
      dataAreas := larger;
    }

    /** One area into the table: the previous holder of its slot moves to the overflow. */
    method Store(area: Area)
      requires Valid()
      modifies this`dataAreas, this`size, dataAreas
      ensures Valid() && Contents() == Insert(old(Contents()), area)
      ensures dataAreas == old(dataAreas) || fresh(dataAreas)
    {
      if area.id >= dataAreasCount {
        return;
      }
      if dataAreas[area.id].Valid() {
        if size >= dataAreas.Length {
          MoveToLargerHeapStorage();
        }
        dataAreas[size] := dataAreas[area.id];
        size := size + 1;
      }
      dataAreas[area.id] := area;
    }

    method ParseAllDataAreas()
      requires Valid() && Contents() == EmptyTable(dataAreasCount)
      modifies this, dataAreas
      ensures Valid() && Contents() == InsertAll(EmptyTable(dataAreasCount), Areas(buffer, 0))
    {
      hide ParseOne, Insert, InsertAll, Areas;
      var cur := 0;
      while true
        invariant cur <= |buffer| && Valid()
        invariant dataAreas == old(dataAreas) || fresh(dataAreas)
        invariant InsertAll(Contents(), Areas(buffer, cur)) == InsertAll(EmptyTable(dataAreasCount), Areas(buffer, 0))
        decreases |buffer| - cur
      {
        AreasStep(buffer, cur, Contents());
        var r := ParseOneDataArea(buffer, cur);
        cur := r.next;
        if r.status == Skip {
          continue;
        } else if r.status == Abort {
          currentRead := r.next;
          break;
        }
        Store(r.area);
      }
    }

    method ReadNextDataArea() returns (area: Area)
      requires Valid()
      modifies this`currentRead
      ensures Valid() && Next(area, currentRead) == NextArea(buffer, old(currentRead))
    {
      hide ParseOne;
      while true
        invariant Valid() && NextArea(buffer, currentRead) == NextArea(buffer, old(currentRead))
        decreases |buffer| - currentRead
      {
        var r := ParseOneDataArea(buffer, currentRead);
        currentRead := r.next;
        if r.status != Skip {
          return r.area;
        }
      }
    }

    /** The first report with this id; the cursor is put back where it was. */
    method FindDataArea(id: nat) returns (area: Area)
      requires Valid() && Ends(buffer, 0, id)
      modifies this`currentRead
      ensures Valid() && currentRead == old(currentRead)
      ensures area == First(Reported(buffer, 0), id)
    {
      hide ParseOne, Areas, NextArea, Stop, Stuck, Ends, Reported;
      var saved := currentRead;
      currentRead := 0;
      area := NO_AREA;
      ghost var from := 0;
      var next := ReadNextDataArea();
      while next.Valid()
        invariant Valid() && saved == old(currentRead) && saved <= |buffer| && area == NO_AREA
        invariant from <= |buffer| && Next(next, currentRead) == NextArea(buffer, from) && Ends(buffer, from, id)
        invariant First(Reported(buffer, from), id) == First(Reported(buffer, 0), id)
        decreases |buffer| - from
      {
        FirstStep(buffer, from, id);
        if next.id == id {
          area := next;
          break;
        }
        from := currentRead;
        next := ReadNextDataArea();
      }
      FirstStep(buffer, from, id);
      currentRead := saved;
    }

    /** The values of a repeated field: its overflow entries, then its slot. */
    method GetRepeated(id: nat) returns (areas: seq<Area>)
      requires Valid() && id < dataAreasCount
      ensures areas == Held(Contents(), id)
    {
      areas := [];
      var k := dataAreasCount;
      while k < size
        invariant dataAreasCount <= k <= size
        invariant areas == WithId(dataAreas[dataAreasCount..k], id)
      {
        if dataAreas[k].id == id {
          areas := areas + [dataAreas[k]];
        }
        assert dataAreas[dataAreasCount..k + 1] == dataAreas[dataAreasCount..k] + [dataAreas[k]];
        WithIdAppend(dataAreas[dataAreasCount..k], [dataAreas[k]], id);
        k := k + 1;
      }
      if dataAreas[id].Valid() {
        areas := areas + [dataAreas[id]];
      }
    }
  }

  /** A search that can end has found its area, has nothing left, or goes on further along. */
  lemma FirstStep(b: seq<Byte>, from: nat, id: nat)
    requires from <= |b| && Ends(b, from, id)
    ensures var n := NextArea(b, from);
            if !n.area.Valid() then First(Reported(b, from), id) == NO_AREA
            else if n.area.id == id then First(Reported(b, from), id) == n.area
            else
              && from < n.cursor && Ends(b, n.cursor, id)
              && First(Reported(b, from), id) == First(Reported(b, n.cursor), id)
  {
    SearchStep(b, from, id);
    StuckInvalid(b, from);
    var n := NextArea(b, from);
    hide Areas, NextArea, Stop, ParseOne;
    if Areas(b, from) != [] {
      assert ([n.area] + Reported(b, n.cursor))[1..] == Reported(b, n.cursor);
    }
  }
}
