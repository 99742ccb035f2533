/** The clock filter as an object: one ordered map per pair of clocks, filled by snapshots. */
module ClockFilterObject {
  import opened MachineWords
  import Clock = ClockFilter

  class Filter {
    var clockMaps: map<string, seq<Clock.Entry>>
    var hasInitSnapShot: bool

    constructor ()
      ensures clockMaps == map[] && !hasInitSnapShot
    {
      clockMaps, hasInitSnapShot := map[], false;
    }

    method Convert(src: U32, srcTs: U64, des: U32) returns (r: U64)
      requires Clock.Valid(clockMaps)
      ensures r == Clock.Convert(clockMaps, src, srcTs, des)
    {
      var key := Clock.GenClockKey(src, des);
      if key !in clockMaps {
        return srcTs;
      }
      var k := Clock.UpperBound(clockMaps[key], srcTs);
      if k != 0 {
        k := k - 1;
      }
      var offset := clockMaps[key][k].offset;
      if offset >= 0 {
        r := Add64(srcTs, offset);
      } else {
        r := Sub64(srcTs, 0 - offset);
      }
    }

    method AddConvertClockMap(src: U32, des: U32, srcTs: U64, desTs: U64)
      requires Clock.Valid(clockMaps)
      modifies this`clockMaps
      ensures clockMaps == Clock.Add(old(clockMaps), Clock.Link(src, des, srcTs, desTs)) && Clock.Valid(clockMaps)
    {
      Clock.AddValid(clockMaps, Clock.Link(src, des, srcTs, desTs));
      var key := Clock.GenClockKey(src, des);
      var entry := Clock.Entry(srcTs, Clock.Signed64(Sub64(desTs, srcTs)));
      if key !in clockMaps {
        assert Clock.Insert([], entry) == [entry];
        clockMaps := clockMaps[key := [entry]];
      } else {
        clockMaps := clockMaps[key := Clock.Insert(clockMaps[key], entry)];
      }
    }

    /** Links every two clocks of the snapshot in both directions. */
    method AddClockSnapshot(snap: seq<Clock.SnapShot>)
      requires Clock.Valid(clockMaps) && snap != []
      modifies this
      ensures clockMaps == Clock.AddAll(old(clockMaps), Clock.Links(snap)) && Clock.Valid(clockMaps) && hasInitSnapShot
    {
      hide Clock.Add, Clock.AddAll, Clock.LinksFrom, Clock.Valid;
      var i := 0;
      while i < |snap| - 1
        invariant i <= |snap| - 1 && Clock.Valid(clockMaps)
        invariant Clock.AddAll(clockMaps, Clock.LinksFrom(snap, i, i + 1))
                  == Clock.AddAll(old(clockMaps), Clock.Links(snap))
      {
        var j := i + 1;
        while j < |snap|
          invariant i < j <= |snap| && Clock.Valid(clockMaps)
          invariant Clock.AddAll(clockMaps, Clock.LinksFrom(snap, i, j))
                    == Clock.AddAll(old(clockMaps), Clock.Links(snap))
        {
          NextLinks(clockMaps, snap, i, j);
          AddConvertClockMap(snap[i].clock, snap[j].clock, snap[i].ts, snap[j].ts);
          AddConvertClockMap(snap[j].clock, snap[i].clock, snap[j].ts, snap[i].ts);
          j := j + 1;
        }
        NextRow(snap, i);
        i := i + 1;
      }
      NoMoreRows(clockMaps, snap);
      hasInitSnapShot := true;
    }
  }

  lemma NextRow(snap: seq<Clock.SnapShot>, i: nat)
    requires i < |snap| - 1
    ensures Clock.LinksFrom(snap, i, |snap|) == Clock.LinksFrom(snap, i + 1, i + 2)
  {
  }

  lemma NoMoreRows(maps: Clock.Maps, snap: seq<Clock.SnapShot>)
    requires snap != []
    ensures Clock.AddAll(maps, Clock.LinksFrom(snap, |snap| - 1, |snap|)) == maps
  {
  }

  lemma NextLinks(maps: Clock.Maps, snap: seq<Clock.SnapShot>, i: nat, j: nat)
    requires i < j < |snap|
    ensures Clock.AddAll(maps, Clock.LinksFrom(snap, i, j))
         == Clock.AddAll(Clock.Add(Clock.Add(maps, Clock.Between(snap[i], snap[j])), Clock.Between(snap[j], snap[i])),
                         Clock.LinksFrom(snap, i, j + 1))
  {
    hide Clock.Add;
    var ls := Clock.LinksFrom(snap, i, j);
    assert ls[1..][1..] == Clock.LinksFrom(snap, i, j + 1);
    assert ls[0] == Clock.Between(snap[i], snap[j]) && ls[1..][0] == Clock.Between(snap[j], snap[i]);
  }
}
