/** Lane assignment for dlopen slices: a greedy interval partitioning per process. */
module DlopenLanes {
  import opened MachineWords

  /** A dlopen slice of a process. */
  datatype Slice = Slice(pid: U32, start: nat, end: nat)

  /** The end time of the last slice in a lane, and the lane's depth. */
  datatype Lane = Lane(end: nat, depth: nat)

  /** An ordered map from end times: entries in ascending order of their distinct keys. */
  ghost predicate Ordered(lanes: seq<Lane>) {
    forall i, j | 0 <= i < j < |lanes| :: lanes[i].end < lanes[j].end
  }

  /** Map insertion: an entry whose key is present is dropped. */
  function InsertLane(lanes: seq<Lane>, lane: Lane): (out: seq<Lane>) {
    if lanes == [] then [lane]
    else if lane.end < lanes[0].end then [lane] + lanes
    else if lane.end == lanes[0].end then lanes
    else [lanes[0]] + InsertLane(lanes[1..], lane)
  }

  function EraseLane(lanes: seq<Lane>, i: nat): seq<Lane>
    requires i < |lanes|
  {
    lanes[..i] + lanes[i + 1..]
  }

  /** The loop that looks for a lower lane among those free before `start`, from entry i on. */
  function Lowest(lanes: seq<Lane>, start: nat, i: nat, best: nat): (r: nat)
    requires i <= |lanes| && best < |lanes|
    ensures r < |lanes|
    ensures r == best || (lanes[r].end < start && lanes[r].depth < lanes[best].depth)
    ensures forall k | i <= k < |lanes| && lanes[k].end < start :: lanes[r].depth <= lanes[k].depth
    decreases |lanes| - i
  {
    if i == |lanes| then best
    else if lanes[i].end < start && lanes[i].depth < lanes[best].depth then Lowest(lanes, start, i + 1, i)
    else Lowest(lanes, start, i + 1, best)
  }

  /** A lane is free: some slice has ended by `start`. */
  predicate Reuses(lanes: seq<Lane>, start: nat) {
    lanes != [] && lanes[0].end <= start
  }

  function DepthFor(lanes: seq<Lane>, start: nat): nat {
    if Reuses(lanes, start) then lanes[Lowest(lanes, start, 0, 0)].depth else |lanes|
  }

  /** CalcDepthByTimeStamp: the lanes after a slice has been given its depth. */
  function LanesAfter(lanes: seq<Lane>, start: nat, end: nat): seq<Lane> {
    if Reuses(lanes, start)
    then InsertLane(EraseLane(lanes, Lowest(lanes, start, 0, 0)), Lane(end, DepthFor(lanes, start)))
    else InsertLane(lanes, Lane(end, DepthFor(lanes, start)))
  }

  method CalcDepthByTimeStamp(lanes: seq<Lane>, start: nat, end: nat) returns (out: seq<Lane>, depth: nat)
    ensures out == LanesAfter(lanes, start, end) && depth == DepthFor(lanes, start)
  {
    depth := 0;
    if lanes == [] {
      out := InsertLane(lanes, Lane(end, 0));
      return;
    }
    if lanes[0].end > start {
      depth := |lanes|;
      out := InsertLane(lanes, Lane(end, |lanes|));
      return;
    }
    var chosen := 0;
    depth := lanes[0].depth;
    var i := 0;
    while i < |lanes|
      invariant i <= |lanes| && chosen < |lanes| && depth == lanes[chosen].depth
      invariant Lowest(lanes, start, i, chosen) == Lowest(lanes, start, 0, 0)
    {
      if lanes[i].end < start && depth > lanes[i].depth {
        depth := lanes[i].depth;
        chosen := i;
      }
      i := i + 1;
    }
    out := InsertLane(EraseLane(lanes, chosen), Lane(end, depth));
  }

  // ---------- all slices ----------

  /** The depths given so far, and the lanes of each process. */
  datatype Assigned = Assigned(depths: seq<nat>, lanes: map<U32, seq<Lane>>)
  {
    function LanesOf(pid: U32): seq<Lane> {
      if pid in lanes then lanes[pid] else []
    }
  }

  function Assign(slices: seq<Slice>): (out: Assigned)
    ensures |out.depths| == |slices|
  {
    if slices == [] then Assigned([], map[])
    else
      var before, s := Assign(slices[..|slices| - 1]), slices[|slices| - 1];
      var lanes := before.LanesOf(s.pid);
      Assigned(before.depths + [DepthFor(lanes, s.start)],
               before.lanes[s.pid := LanesAfter(lanes, s.start, s.end)])
  }

  /** ParserSoInitalization, on the slices whose name is a dlopen. */
  method AssignDepths(slices: seq<Slice>) returns (depths: seq<nat>)
    ensures depths == Assign(slices).depths
  {
    depths := [];
    var maxTimeAndDepthWithPid: map<U32, seq<Lane>> := map[];
    for i := 0 to |slices|
      invariant Assign(slices[..i]) == Assigned(depths, maxTimeAndDepthWithPid)
    {
      var s := slices[i];
      assert slices[..i + 1][..i] == slices[..i];
      if s.pid !in maxTimeAndDepthWithPid {
        maxTimeAndDepthWithPid := maxTimeAndDepthWithPid[s.pid := [Lane(s.end, 0)]];
        depths := depths + [0];
      } else {
        var out, depth := CalcDepthByTimeStamp(maxTimeAndDepthWithPid[s.pid], s.start, s.end);
        maxTimeAndDepthWithPid := maxTimeAndDepthWithPid[s.pid := out];
        depths := depths + [depth];
      }
    }
    assert slices[..|slices|] == slices;
  }

  // ---------- map operations by membership ----------

  lemma {:induction false} InsertMembers(lanes: seq<Lane>, lane: Lane)
    requires Ordered(lanes) && forall x | x in lanes :: x.end != lane.end
    ensures var out := InsertLane(lanes, lane);
            Ordered(out) && |out| == |lanes| + 1 && forall x :: x in out <==> x in lanes || x == lane
  {
    if lanes != [] && lane.end >= lanes[0].end {
      assert lanes[0] in lanes;
      forall x | x in lanes[1..] ensures x.end != lane.end { assert x in lanes; }
      InsertMembers(lanes[1..], lane);
      assert lanes == [lanes[0]] + lanes[1..];
      var rest := InsertLane(lanes[1..], lane);
      forall i | 0 <= i < |rest| ensures lanes[0].end < rest[i].end { assert rest[i] in rest; }
    }
  }

  /** Insertion under a key that is present changes nothing. */
  lemma {:induction false} InsertDropped(lanes: seq<Lane>, lane: Lane)
    requires Ordered(lanes) && exists x :: x in lanes && x.end == lane.end
    ensures InsertLane(lanes, lane) == lanes
  {
    var x :| x in lanes && x.end == lane.end;
    assert lanes == [lanes[0]] + lanes[1..];
    if lanes[0].end != lane.end {
      assert x in lanes[1..];
      InsertDropped(lanes[1..], lane);
    }
  }

  lemma EraseMembers(lanes: seq<Lane>, i: nat)
    requires Ordered(lanes) && i < |lanes|
    ensures var out := EraseLane(lanes, i);
            Ordered(out) && |out| == |lanes| - 1 && forall x :: x in out <==> x in lanes && x != lanes[i]
  {
  }
}
