/** Searching for a field by reading areas one after the other, on any byte string. */
module ProtoSearch {
  import opened MachineWords
  import opened ProtoReader
  import opened ProtoEncoding

  /** The position at which reading stops for good. */
  function Stop(b: seq<Byte>, start: nat): (stop: nat)
    requires start <= |b|
    ensures start <= stop <= |b| && ParseOne(b, stop).status == Abort
    decreases |b| - start
  {
    var r := ParseOne(b, start);
    if r.status == Abort then start else Stop(b, r.next)
  }

  /** What reading reports there: no area, or that of a field that does not parse. */
  function Stuck(b: seq<Byte>, start: nat): Area
    requires start <= |b|
  {
    ParseOne(b, Stop(b, start)).area
  }

  /** Reading stops without reporting an area. */
  ghost predicate Clean(b: seq<Byte>, start: nat)
    requires start <= |b|
  {
    !Stuck(b, start).Valid()
  }

  /** What ReadNextDataArea reports, and where it leaves the cursor. */
  datatype Next = Next(area: Area, cursor: nat)

  function NextArea(b: seq<Byte>, start: nat): (n: Next)
    requires start <= |b|
    ensures start <= n.cursor <= |b|
    decreases |b| - start
  {
    var r := ParseOne(b, start);
    if r.status == Skip then NextArea(b, r.next) else Next(r.area, r.next)
  }

  /** Reading reports the areas in wire order and then the stuck one. */
  lemma {:induction false} ReadsInOrder(b: seq<Byte>, start: nat)
    requires start <= |b|
    ensures var areas, n := Areas(b, start), NextArea(b, start);
            if areas == [] then n == Next(Stuck(b, start), Stop(b, start))
            else
              && n.area == areas[0] && start < n.cursor && Areas(b, n.cursor) == areas[1..]
              && Stop(b, n.cursor) == Stop(b, start)
    decreases |b| - start
  {
    var r := ParseOne(b, start);
    hide ParseOne;
    if r.status == Skip {
      assert [] + Areas(b, r.next) == Areas(b, r.next);
      ReadsInOrder(b, r.next);
    } else if r.status == Ok {
      assert ([r.area] + Areas(b, r.next))[1..] == Areas(b, r.next);
    }
  }

  /** Where reading stops it reports the same area again and again and does not move. */
  lemma StuckStays(b: seq<Byte>, start: nat)
    requires start <= |b|
    ensures NextArea(b, Stop(b, start)) == Next(Stuck(b, start), Stop(b, start))
    ensures Areas(b, Stop(b, start)) == [] && Stop(b, Stop(b, start)) == Stop(b, start)
  {
    hide ParseOne;
  }

  /** The first area with this id, or the invalid area. */
  function First(areas: seq<Area>, id: nat): Area {
    if areas == [] then NO_AREA else if areas[0].id == id then areas[0] else First(areas[1..], id)
  }

  ghost predicate HasId(areas: seq<Area>, id: nat) {
    exists k | 0 <= k < |areas| :: areas[k].id == id
  }

  /** The loop of FindDataArea, given up after so many tries; None if it has not ended by then. */
  function Search(b: seq<Byte>, start: nat, id: nat, tries: nat): Option<Area>
    requires start <= |b|
    decreases tries
  {
    if tries == 0 then None
    else
      var n := NextArea(b, start);
      if !n.area.Valid() then Some(NO_AREA)
      else if n.area.id == id then Some(n.area)
      else Search(b, n.cursor, id, tries - 1)
  }

  /** Everything that reading reports, once each. */
  function Reported(b: seq<Byte>, start: nat): seq<Area>
    requires start <= |b|
  {
    Areas(b, start) + [Stuck(b, start)]
  }

  /** The search can end: nothing is stuck, or what is searched for is reported. */
  ghost predicate Ends(b: seq<Byte>, start: nat, id: nat)
    requires start <= |b|
  {
    Clean(b, start) || HasId(Areas(b, start), id) || Stuck(b, start).id == id
  }

  lemma HasIdRest(areas: seq<Area>, id: nat)
    requires areas != []
    ensures HasId(areas, id) <==> areas[0].id == id || HasId(areas[1..], id)
  {
    if k :| 0 < k < |areas| && areas[k].id == id {
      assert areas[1..][k - 1].id == id;
    }
  }

  /** One read of the search. */
  lemma SearchStep(b: seq<Byte>, start: nat, id: nat)
    requires start <= |b|
    ensures var areas, n := Areas(b, start), NextArea(b, start);
            if areas == [] then n == Next(Stuck(b, start), Stop(b, start)) && Reported(b, start) == [n.area]
            else
              && n.area == areas[0] && n.area.Valid() && start < n.cursor
              && Reported(b, start) == [n.area] + Reported(b, n.cursor)
              && (Ends(b, start, id) <==> n.area.id == id || Ends(b, n.cursor, id))
  {
    ReadsInOrder(b, start);
    hide Stop, NextArea, ParseOne;
    var areas, n := Areas(b, start), NextArea(b, start);
    if areas != [] {
      HasIdRest(areas, id);
      assert areas == [areas[0]] + areas[1..];
    }
  }

  /** A search that ends returns the first report with the id. */
  lemma {:induction false} SearchFinds(b: seq<Byte>, start: nat, id: nat, tries: nat)
    requires start <= |b|
    ensures Search(b, start, id, tries).Some? ==>
              Ends(b, start, id) && Search(b, start, id, tries).value == First(Reported(b, start), id)
    decreases tries
  {
    if tries != 0 {
      SearchStep(b, start, id);
      var n := NextArea(b, start);
      StuckInvalid(b, start);
      hide Areas, NextArea, Stop, ParseOne, HasId;
      if n.area.Valid() && n.area.id != id {
        SearchFinds(b, n.cursor, id, tries - 1);
        if Areas(b, start) != [] {
          assert ([n.area] + Reported(b, n.cursor))[1..] == Reported(b, n.cursor);
        } else {
          StuckNeverEnds(b, start, id, tries - 1);
        }
      }
    }
  }

  lemma StuckInvalid(b: seq<Byte>, start: nat)
    requires start <= |b|
    ensures !Stuck(b, start).Valid() ==> Stuck(b, start) == NO_AREA
  {
  }

  /** From the place where reading is stuck on another field, no number of tries ends the search. */
  lemma {:induction false} StuckNeverEnds(b: seq<Byte>, start: nat, id: nat, tries: nat)
    requires start <= |b| && Stuck(b, start).Valid() && Stuck(b, start).id != id
    ensures Search(b, Stop(b, start), id, tries).None?
    decreases tries
  {
    StuckStays(b, start);
    hide Areas, NextArea, ParseOne;
    if tries != 0 {
      StuckNeverEnds(b, start, id, tries - 1);
    }
  }

  /** How many tries the search takes, if it can end. */
  lemma {:induction false} SearchTakes(b: seq<Byte>, start: nat, id: nat) returns (tries: nat)
    requires start <= |b| && Ends(b, start, id)
    ensures Search(b, start, id, tries).Some?
    decreases |b| - start
  {
    SearchStep(b, start, id);
    var n := NextArea(b, start);
    tries := 1;
    if Areas(b, start) != [] && n.area.id != id {
      var more := SearchTakes(b, n.cursor, id);
      tries := more + 1;
    }
  }

  /**
   * On every byte string and for every id: the search ends if and only if reading stops without a stuck field, or an
   * area read before that has the id, or the stuck field has it; and then it returns the first of them.
   */
  lemma SearchEndsExactly(b: seq<Byte>, id: nat)
    ensures (exists tries :: Search(b, 0, id, tries).Some?) <==> Ends(b, 0, id)
    ensures forall tries :: Search(b, 0, id, tries).Some? ==> Search(b, 0, id, tries).value == First(Reported(b, 0), id)
  {
    forall tries ensures Search(b, 0, id, tries).Some? ==>
                           Ends(b, 0, id) && Search(b, 0, id, tries).value == First(Reported(b, 0), id)
    {
      SearchFinds(b, 0, id, tries);
    }
    if Ends(b, 0, id) {
      var tries := SearchTakes(b, 0, id);
      assert Search(b, 0, id, tries).Some?;
    }
  }

  /** The first area with an id is the head of the list of areas with that id. */
  lemma {:induction false} FirstIsHead(areas: seq<Area>, id: nat)
    ensures First(areas, id) == if WithId(areas, id) == [] then NO_AREA else WithId(areas, id)[0]
  {
    if areas != [] {
      FirstIsHead(areas[1..], id);
    }
  }

  /** Every encoded list of fields can be searched for any id. */
  lemma {:induction false} EncodedIsClean(b: seq<Byte>, offset: nat, fields: seq<Field>)
    requires offset <= |b| && b[offset..] == EncodeAll(fields) && forall f | f in fields :: f.Valid()
    ensures Clean(b, offset)
    decreases fields
  {
    hide Encode, AreaOf;
    if fields != [] {
      var f, rest := fields[0], fields[1..];
      var next := offset + |Encode(f)|;
      assert b[offset..] == Encode(f) + EncodeAll(rest);
      assert b[offset..next] == b[offset..][..|Encode(f)|] && b[next..] == b[offset..][|Encode(f)|..];
      ReadsField(b, offset, f);
      hide ParseOne;
      EncodedIsClean(b, next, rest);
    }
  }

  lemma {:induction false} FirstOfClean(areas: seq<Area>, id: nat)
    ensures First(areas + [NO_AREA], id) == First(areas, id)
  {
    if areas != [] {
      assert (areas + [NO_AREA])[1..] == areas[1..] + [NO_AREA];
      FirstOfClean(areas[1..], id);
    }
  }

  /** Searching an encoded list of fields ends, with the first field that has the id. */
  lemma SearchesEncoded(fields: seq<Field>, id: nat)
    requires forall f | f in fields :: f.Valid()
    ensures var b := EncodeAll(fields);
            Ends(b, 0, id) && First(Reported(b, 0), id) == First(AreasOf(fields, 0), id)
  {
    var b := EncodeAll(fields);
    hide ParseOne, AreasOf, Areas;
    EncodedIsClean(b, 0, fields);
    ReadsFields(b, 0, fields);
    StuckInvalid(b, 0);
    FirstOfClean(Areas(b, 0), id);
  }

  /** A field cut short: a search for its own id finds it, a search for any other never ends. */
  lemma TruncatedFieldIsStuck(id: nat, tries: nat)
    requires id != 1
    ensures var b: seq<Byte> := [8, 128];
            Stuck(b, 0) == Area(1, VARINT, 0, 0) && Search(b, 0, id, tries).None?
                && Search(b, 0, 1, 1) == Some(Stuck(b, 0))
  {
    var b: seq<Byte> := [8, 128];
    Pow2At64();
    assert VarIntFrom(b, 1, 0, 0) == None;
    assert NextTag(b, 0) == Some(Decoded(8, 1));
    StuckNeverEnds(b, 0, id, tries);
    StuckStays(b, 0);
  }

  /** A field of an unknown wire type is stuck too, although the message is not cut short. */
  lemma UnknownWireTypeIsStuck()
    ensures var b: seq<Byte> := [11, 0]; Stuck(b, 0) == Area(1, 3, 0, 0) && !Clean(b, 0)
  {
    var b: seq<Byte> := [11, 0];
    assert NextTag(b, 0) == Some(Decoded(11, 1));
  }
}
