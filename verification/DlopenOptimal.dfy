/** The greedy never overlaps slices in a lane and uses as few lanes as possible. */
module DlopenOptimal {
  import opened MachineWords
  import opened DlopenLanes

  /** The slices of process p start in order and have positive length. */
  ghost predicate InOrder(slices: seq<Slice>, p: U32) {
    && (forall i | 0 <= i < |slices| && slices[i].pid == p :: slices[i].start < slices[i].end)
    && (forall i, j | 0 <= i < j < |slices| && slices[i].pid == p && slices[j].pid == p ::
          slices[i].start <= slices[j].start)
  }

  ghost predicate DistinctEnds(slices: seq<Slice>, p: U32) {
    forall i, j | 0 <= i < j < |slices| && slices[i].pid == p && slices[j].pid == p :: slices[i].end != slices[j].end
  }

  ghost predicate Fair(slices: seq<Slice>, p: U32) {
    InOrder(slices, p) && DistinctEnds(slices, p)
  }

  /** Slices of p at the same depth follow one another. */
  ghost predicate Disjoint(slices: seq<Slice>, depths: seq<nat>, p: U32)
    requires |depths| == |slices|
  {
    forall i, j | 0 <= i < j < |slices| && slices[i].pid == p && slices[j].pid == p && depths[i] == depths[j] ::
      slices[i].end <= slices[j].start
  }

  /** `last` lists the last slice of each depth. */
  ghost predicate LastOk(slices: seq<Slice>, depths: seq<nat>, p: U32, last: seq<nat>)
    requires |depths| == |slices|
  {
    && (forall d | 0 <= d < |last| :: last[d] < |slices| && slices[last[d]].pid == p && depths[last[d]] == d)
    && (forall i | 0 <= i < |slices| && slices[i].pid == p :: depths[i] < |last| && i <= last[depths[i]])
  }

  /** The lanes hold exactly the end times of those slices. */
  ghost predicate EndsKept(slices: seq<Slice>, lanes: seq<Lane>, last: seq<nat>)
    requires forall d | 0 <= d < |last| :: last[d] < |slices|
  {
    && Ordered(lanes) && |lanes| == |last|
    && (forall d | 0 <= d < |last| :: Lane(slices[last[d]].end, d) in lanes)
    && (forall x | x in lanes :: x.depth < |last| && x.end == slices[last[x.depth]].end)
  }

  ghost predicate Tracks(slices: seq<Slice>, depths: seq<nat>, lanes: seq<Lane>, p: U32, last: seq<nat>)
    requires |depths| == |slices|
  {
    LastOk(slices, depths, p, last) && EndsKept(slices, lanes, last)
  }

  /** The last slice of each depth, once slice number n has been given depth d. */
  function LastAfter(last: seq<nat>, d: nat, n: nat): seq<nat> {
    if d < |last| then last[d := n] else last + [n]
  }

  lemma LastAfterOk(slices: seq<Slice>, depths: seq<nat>, p: U32, last: seq<nat>, s: Slice, d: nat)
    requires |depths| == |slices| && LastOk(slices, depths, p, last) && s.pid == p && d <= |last|
    ensures LastOk(slices + [s], depths + [d], p, LastAfter(last, d, |slices|))
  {
    var slices', depths', last' := slices + [s], depths + [d], LastAfter(last, d, |slices|);
    assert slices'[|slices|] == s && depths'[|slices|] == d && last'[d] == |slices|;
    assert forall i | 0 <= i < |slices| :: slices'[i] == slices[i] && depths'[i] == depths[i];
    assert forall k | 0 <= k < |last| && k != d :: last'[k] == last[k];
  }

  lemma EndsAfterKept(slices: seq<Slice>, lanes: seq<Lane>, last: seq<nat>, s: Slice, d: nat, out: seq<Lane>)
    requires (forall k | 0 <= k < |last| :: last[k] < |slices|) && EndsKept(slices, lanes, last) && d <= |last|
    requires Ordered(out) && |out| == |LastAfter(last, d, |slices|)|
    requires forall x :: x in out <==> (x in lanes && x.depth != d) || x == Lane(s.end, d)
    ensures forall k | 0 <= k < |LastAfter(last, d, |slices|)| :: LastAfter(last, d, |slices|)[k] < |slices + [s]|
    ensures EndsKept(slices + [s], out, LastAfter(last, d, |slices|))
  {
    var slices', last' := slices + [s], LastAfter(last, d, |slices|);
    assert slices'[|slices|] == s && last'[d] == |slices|;
    forall k | 0 <= k < |last'| ensures last'[k] < |slices'| && Lane(slices'[last'[k]].end, k) in out {
      if k != d {
        assert last'[k] == last[k] && slices'[last[k]] == slices[last[k]];
        assert Lane(slices[last[k]].end, k) in lanes;
      }
    }
    forall x | x in out ensures x.depth < |last'| && x.end == slices'[last'[x.depth]].end {
      if x != Lane(s.end, d) {
        assert last'[x.depth] == last[x.depth] && slices'[last[x.depth]] == slices[last[x.depth]];
      }
    }
  }

  /** Lanes whose entry for depth d has been replaced (or added) still track the slices. */
  lemma ReplacedTracks(slices: seq<Slice>, depths: seq<nat>, lanes: seq<Lane>, p: U32, last: seq<nat>, s: Slice, d: nat,
                       out: seq<Lane>)
    requires |depths| == |slices| && Tracks(slices, depths, lanes, p, last) && s.pid == p && d <= |last|
    requires Ordered(out) && |out| == |LastAfter(last, d, |slices|)|
    requires forall x :: x in out <==> (x in lanes && x.depth != d) || x == Lane(s.end, d)
    ensures Tracks(slices + [s], depths + [d], out, p, LastAfter(last, d, |slices|))
  {
    LastAfterOk(slices, depths, p, last, s, d);
    EndsAfterKept(slices, lanes, last, s, d, out);
    hide EndsKept, LastAfter, Ordered;
  }

  /** Giving a slice of p its depth keeps the lanes in step. */
  lemma LanesTrack(slices: seq<Slice>, depths: seq<nat>, lanes: seq<Lane>, p: U32, last: seq<nat>, s: Slice)
    requires |depths| == |slices| && Tracks(slices, depths, lanes, p, last) && s.pid == p
    requires forall i | 0 <= i < |slices| && slices[i].pid == p :: slices[i].end != s.end
    ensures var d := DepthFor(lanes, s.start);
            && d <= |last|
            && Tracks(slices + [s], depths + [d], LanesAfter(lanes, s.start, s.end), p, LastAfter(last, d, |slices|))
  {
    var d := DepthFor(lanes, s.start);
    var lane, out := Lane(s.end, d), LanesAfter(lanes, s.start, s.end);
    assert forall x | x in lanes :: x.end != s.end;
    if Reuses(lanes, s.start) {
      var c := Lowest(lanes, s.start, 0, 0);
      assert lanes[c] in lanes;
      EraseMembers(lanes, c);
      var rest := EraseLane(lanes, c);
      assert forall x | x in lanes :: x.depth == d <==> x == lanes[c];
      InsertMembers(rest, lane);
    } else {
      InsertMembers(lanes, lane);
    }
    hide Lowest, InsertLane, EraseLane;
    ReplacedTracks(slices, depths, lanes, p, last, s, d, out);
  }

  /** A reused lane is free at the new slice's start. */
  lemma ReusedIsFree(lanes: seq<Lane>, start: nat)
    requires Reuses(lanes, start)
    ensures lanes[Lowest(lanes, start, 0, 0)].end <= start
  {
  }

  lemma StaysDisjoint(slices: seq<Slice>, depths: seq<nat>, lanes: seq<Lane>, p: U32, last: seq<nat>, s: Slice)
    requires |depths| == |slices| && Tracks(slices, depths, lanes, p, last) && s.pid == p
    requires Disjoint(slices, depths, p) && InOrder(slices, p)
    ensures Disjoint(slices + [s], depths + [DepthFor(lanes, s.start)], p)
  {
    var d := DepthFor(lanes, s.start);
    forall i | 0 <= i < |slices| && slices[i].pid == p && depths[i] == d ensures slices[i].end <= s.start {
      if Reuses(lanes, s.start) {
        ReusedIsFree(lanes, s.start);
        assert lanes[Lowest(lanes, s.start, 0, 0)] in lanes;
        if i < last[d] {
          assert slices[i].end <= slices[last[d]].start;
        }
      }
    }
  }

  // ---------- live slices ----------

  ghost predicate LiveAt(slices: seq<Slice>, p: U32, live: set<nat>, time: nat) {
    forall i <- live :: i < |slices| && slices[i].pid == p && slices[i].start <= time < slices[i].end
  }

  lemma {:induction false} CardOfDistinct(s: seq<nat>)
    requires forall i, j | 0 <= i < j < |s| :: s[i] != s[j]
    ensures |Elements(s)| == |s|
  {
    if s != [] {
      var n := |s| - 1;
      CardOfDistinct(s[..n]);
      assert s[n] !in s[..n];
      assert Elements(s) == Elements(s[..n]) + {s[n]};
    }
  }

  function Elements(s: seq<nat>): set<nat> {
    set x | x in s
  }

  /** When every lane is busy, its last slices and the new one are live together. */
  lemma AllBusy(slices: seq<Slice>, depths: seq<nat>, lanes: seq<Lane>, p: U32, last: seq<nat>, s: Slice)
      returns (live: set<nat>)
    requires |depths| == |slices| && Tracks(slices, depths, lanes, p, last) && s.pid == p && !Reuses(lanes, s.start)
    requires InOrder(slices + [s], p)
    ensures |live| == |lanes| + 1 && LiveAt(slices + [s], p, live, s.start)
  {
    var all := last + [|slices|];
    forall i, j | 0 <= i < j < |all| ensures all[i] != all[j] {
      if j < |last| { assert depths[last[i]] == i && depths[last[j]] == j; }
    }
    CardOfDistinct(all);
    live := Elements(all);
    var out := slices + [s];
    assert out[|slices|] == s;
    forall x <- live ensures x < |out| && out[x].pid == p && out[x].start <= s.start < out[x].end {
      if x != |slices| {
        var d :| 0 <= d < |last| && last[d] == x;
        var i :| 0 <= i < |lanes| && lanes[i] == Lane(slices[last[d]].end, d);
        assert lanes[0].end <= lanes[i].end;
        assert out[x] == slices[x];
      }
    }
  }

  /** Live slices have different depths, so there are at most as many as lanes. */
  lemma {:induction false} AtMostLanes(slices: seq<Slice>, depths: seq<nat>, p: U32, lanes: nat, live: set<nat>,
                                       time: nat)
    requires |depths| == |slices| && Disjoint(slices, depths, p) && LiveAt(slices, p, live, time)
    requires forall i <- live :: depths[i] < lanes
    ensures |live| <= lanes
    decreases lanes
  {
    if lanes == 0 {
      assert live == {};
    } else {
      var top := set i | i in live && depths[i] == lanes - 1;
      if top == {} {
        forall i <- live ensures depths[i] < lanes - 1 { assert i !in top; }
        AtMostLanes(slices, depths, p, lanes - 1, live, time);
      } else {
        var x :| x in top;
        assert top == {x};
        assert live == (live - {x}) + {x};
        AtMostLanes(slices, depths, p, lanes - 1, live - {x}, time);
      }
    }
  }

  // ---------- whole runs ----------

  lemma OtherProcess(slices: seq<Slice>, depths: seq<nat>, lanes: seq<Lane>, p: U32, last: seq<nat>, s: Slice, d: nat)
    requires |depths| == |slices| && Tracks(slices, depths, lanes, p, last) && Disjoint(slices, depths, p) && s.pid != p
    ensures Tracks(slices + [s], depths + [d], lanes, p, last) && Disjoint(slices + [s], depths + [d], p)
  {
  }

  lemma FairPrefix(slices: seq<Slice>, s: Slice, p: U32)
    requires Fair(slices + [s], p)
    ensures Fair(slices, p)
    ensures s.pid == p ==> forall i | 0 <= i < |slices| && slices[i].pid == p :: slices[i].end != s.end
  {
    assert forall i | 0 <= i < |slices| :: (slices + [s])[i] == slices[i];
    assert (slices + [s])[|slices|] == s;
  }

  lemma LiveExtends(slices: seq<Slice>, s: Slice, p: U32, live: set<nat>, time: nat)
    requires LiveAt(slices, p, live, time)
    ensures LiveAt(slices + [s], p, live, time)
  {
  }

  lemma AssignStep(slices: seq<Slice>, s: Slice)
    ensures var a, out := Assign(slices), Assign(slices + [s]);
            && out.depths == a.depths + [DepthFor(a.LanesOf(s.pid), s.start)]
            && out.LanesOf(s.pid) == LanesAfter(a.LanesOf(s.pid), s.start, s.end)
            && forall p | p != s.pid :: out.LanesOf(p) == a.LanesOf(p)
  {
    assert (slices + [s])[..|slices|] == slices;
  }

  /** One more slice of the process. */
  lemma StepTracks(slices: seq<Slice>, s: Slice, p: U32, last: seq<nat>, live: set<nat>, time: nat)
    returns (last': seq<nat>, live': set<nat>, time': nat)
    requires Fair(slices + [s], p) && s.pid == p
    requires var a := Assign(slices);
             && Tracks(slices, a.depths, a.LanesOf(p), p, last) && Disjoint(slices, a.depths, p)
             && |live| == |a.LanesOf(p)| && LiveAt(slices, p, live, time)
    ensures var a := Assign(slices + [s]);
            && Tracks(slices + [s], a.depths, a.LanesOf(p), p, last') && Disjoint(slices + [s], a.depths, p)
            && |live'| == |a.LanesOf(p)| && LiveAt(slices + [s], p, live', time')
  {
    hide Assign, Tracks, Disjoint, InOrder, DistinctEnds, LiveAt;
    FairPrefix(slices, s, p);
    AssignStep(slices, s);
    var a := Assign(slices);
    var d := DepthFor(a.LanesOf(p), s.start);
    LanesTrack(slices, a.depths, a.LanesOf(p), p, last, s);
    StaysDisjoint(slices, a.depths, a.LanesOf(p), p, last, s);
    last' := LastAfter(last, d, |slices|);
    TracksLength(slices, a.depths, a.LanesOf(p), p, last);
    TracksLength(slices + [s], a.depths + [d], LanesAfter(a.LanesOf(p), s.start, s.end), p, last');
    if Reuses(a.LanesOf(p), s.start) {
      ReusedDepth(slices, a.depths, a.LanesOf(p), p, last, s.start);
      LiveExtends(slices, s, p, live, time);
      live', time' := live, time;
    } else {
      live' := AllBusy(slices, a.depths, a.LanesOf(p), p, last, s);
      time' := s.start;
    }
  }

  lemma {:induction false} RunTracks(slices: seq<Slice>, p: U32) returns (last: seq<nat>, live: set<nat>, time: nat)
    requires Fair(slices, p)
    ensures var a := Assign(slices);
            && Tracks(slices, a.depths, a.LanesOf(p), p, last) && Disjoint(slices, a.depths, p)
            && |live| == |a.LanesOf(p)| && LiveAt(slices, p, live, time)
  {
    if slices == [] {
      return [], {}, 0;
    }
    hide Assign, Tracks, Disjoint, InOrder, DistinctEnds, LiveAt;
    var rest, s := slices[..|slices| - 1], slices[|slices| - 1];
    assert slices == rest + [s];
    FairPrefix(rest, s, p);
    last, live, time := RunTracks(rest, p);
    if s.pid == p {
      last, live, time := StepTracks(rest, s, p, last, live, time);
    } else {
      AssignStep(rest, s);
      var a := Assign(rest);
      OtherProcess(rest, a.depths, a.LanesOf(p), p, last, s, DepthFor(a.LanesOf(s.pid), s.start));
      LiveExtends(rest, s, p, live, time);
    }
  }

  lemma TracksLength(slices: seq<Slice>, depths: seq<nat>, lanes: seq<Lane>, p: U32, last: seq<nat>)
    requires |depths| == |slices| && Tracks(slices, depths, lanes, p, last)
    ensures |lanes| == |last|
  {
  }

  lemma ReusedDepth(slices: seq<Slice>, depths: seq<nat>, lanes: seq<Lane>, p: U32, last: seq<nat>, start: nat)
    requires |depths| == |slices| && Tracks(slices, depths, lanes, p, last) && Reuses(lanes, start)
    ensures DepthFor(lanes, start) < |last|
  {
    assert lanes[Lowest(lanes, start, 0, 0)] in lanes;
  }

  ghost predicate HasDepth(lanes: seq<Lane>, d: int) {
    exists x :: x in lanes && x.depth == d
  }

  /**
   * Slices of p with equal depth never overlap, the lanes in the map are exactly 0..n-1, and n is the largest
   * number of slices live at one time, so no assignment could do with fewer lanes.
   */
  ghost predicate Optimal(slices: seq<Slice>, p: U32) {
    var a := Assign(slices);
    var n := |a.LanesOf(p)|;
    && Disjoint(slices, a.depths, p)
    && (forall d: int :: HasDepth(a.LanesOf(p), d) <==> 0 <= d < n)
    && (exists live, time :: LiveAt(slices, p, live, time) && |live| == n)
    && (forall live, time | LiveAt(slices, p, live, time) :: |live| <= n)
  }

  /** For slices of a process with nondecreasing starts, positive lengths and distinct ends the greedy is optimal. */
  lemma LanesAreOptimal(slices: seq<Slice>, p: U32)
    requires Fair(slices, p)
    ensures Optimal(slices, p)
  {
    var a := Assign(slices);
    var last, live, time := RunTracks(slices, p);
    forall d: int ensures HasDepth(a.LanesOf(p), d) <==> 0 <= d < |last| {
      if 0 <= d < |last| {
        assert Lane(slices[last[d]].end, d) in a.LanesOf(p);
      }
    }
    forall live', time' | LiveAt(slices, p, live', time') ensures |live'| <= |last| {
      AtMostLanes(slices, a.depths, p, |last|, live', time');
    }
    assert LiveAt(slices, p, live, time) && |live| == |last|;
    hide Assign, Tracks, HasDepth, LiveAt;
  }

  /** A slice that ends with the next one is still the last of its lane. */
  lemma SharedIsLast(slices: seq<Slice>, depths: seq<nat>, lanes: seq<Lane>, p: U32, last: seq<nat>, s: Slice, i: nat)
    requires |depths| == |slices| && Tracks(slices, depths, lanes, p, last) && Disjoint(slices, depths, p)
    requires InOrder(slices + [s], p) && s.pid == p && i < |slices| && slices[i].pid == p && slices[i].end == s.end
    ensures depths[i] < |last| && last[depths[i]] == i && Lane(s.end, depths[i]) in lanes
  {
    var out, l := slices + [s], last[depths[i]];
    assert out[|slices|] == s && out[l] == slices[l];
  }

  /** The entry of a slice with a shared end is dropped: the map gains no lane, or loses the one reused. */
  lemma SharedDrops(slices: seq<Slice>, depths: seq<nat>, lanes: seq<Lane>, p: U32, last: seq<nat>, s: Slice, i: nat)
    requires |depths| == |slices| && Tracks(slices, depths, lanes, p, last) && Disjoint(slices, depths, p)
    requires InOrder(slices + [s], p) && s.pid == p && i < |slices| && slices[i].pid == p && slices[i].end == s.end
    ensures |LanesAfter(lanes, s.start, s.end)| == if Reuses(lanes, s.start) then |lanes| - 1 else |lanes|
  {
    SharedIsLast(slices, depths, lanes, p, last, s, i);
    var d := DepthFor(lanes, s.start);
    var shared := Lane(s.end, depths[i]);
    assert (slices + [s])[|slices|] == s;
    hide Tracks, Disjoint;
    assert Ordered(lanes) by { TracksOrdered(slices, depths, lanes, p, last); }
    if Reuses(lanes, s.start) {
      var c := Lowest(lanes, s.start, 0, 0);
      ReusedIsFree(lanes, s.start);
      EraseMembers(lanes, c);
      assert shared in EraseLane(lanes, c);
      InsertDropped(EraseLane(lanes, c), Lane(s.end, d));
    } else {
      InsertDropped(lanes, Lane(s.end, d));
    }
  }

  lemma TracksOrdered(slices: seq<Slice>, depths: seq<nat>, lanes: seq<Lane>, p: U32, last: seq<nat>)
    requires |depths| == |slices| && Tracks(slices, depths, lanes, p, last)
    ensures Ordered(lanes)
  {
  }

  /** A shared end leaves more slices live than there are lanes. */
  lemma SharedEndFails(slices: seq<Slice>, s: Slice, p: U32, i: nat)
    requires Fair(slices, p) && InOrder(slices + [s], p) && s.pid == p
    requires i < |slices| && slices[i].pid == p && slices[i].end == s.end
    ensures exists live, time ::
              LiveAt(slices + [s], p, live, time) && |live| > |Assign(slices + [s]).LanesOf(p)|
    ensures !Optimal(slices + [s], p)
  {
    hide Assign, Tracks, Disjoint, InOrder, DistinctEnds, LiveAt, LanesAfter, HasDepth;
    var last, live, time := RunTracks(slices, p);
    AssignStep(slices, s);
    var a := Assign(slices);
    SharedDrops(slices, a.depths, a.LanesOf(p), p, last, s, i);
    if Reuses(a.LanesOf(p), s.start) {
      LiveExtends(slices, s, p, live, time);
    } else {
      live := AllBusy(slices, a.depths, a.LanesOf(p), p, last, s);
      time := s.start;
    }
    assert LiveAt(slices + [s], p, live, time) && |live| > |Assign(slices + [s]).LanesOf(p)|;
  }

  ghost predicate OptimalAfter(slices: seq<Slice>, p: U32, k: nat)
    requires k <= |slices|
  {
    Optimal(slices[..k], p)
  }

  lemma OrderPrefix(slices: seq<Slice>, s: Slice, p: U32)
    ensures InOrder(slices + [s], p) ==> InOrder(slices, p)
    ensures DistinctEnds(slices + [s], p) <==>
            DistinctEnds(slices, p)
            && (s.pid == p ==> forall i | 0 <= i < |slices| && slices[i].pid == p :: slices[i].end != s.end)
  {
    var out := slices + [s];
    assert forall i | 0 <= i < |slices| :: out[i] == slices[i];
    assert out[|slices|] == s;
  }

  /** With nondecreasing starts and positive lengths, the greedy is optimal after every slice if and only if the ends of
    * the process's slices are distinct. */
  lemma {:induction false} OptimalThroughout(slices: seq<Slice>, p: U32)
    requires InOrder(slices, p)
    ensures (forall k | 0 <= k <= |slices| :: OptimalAfter(slices, p, k)) <==> DistinctEnds(slices, p)
    decreases |slices|
  {
    hide Optimal, InOrder, DistinctEnds;
    assert slices[..|slices|] == slices;
    if slices == [] {
      NoSlices(p);
      LanesAreOptimal(slices, p);
    } else {
      var n := |slices| - 1;
      var rest, s := slices[..n], slices[n];
      assert rest + [s] == slices;
      OrderPrefix(rest, s, p);
      OptimalThroughout(rest, p);
      forall k | 0 <= k <= n ensures OptimalAfter(rest, p, k) == OptimalAfter(slices, p, k) {
        assert rest[..k] == slices[..k];
      }
      if DistinctEnds(slices, p) {
        LanesAreOptimal(slices, p);
      } else if DistinctEnds(rest, p) {
        var i :| 0 <= i < |rest| && rest[i].pid == p && rest[i].end == s.end;
        SharedEndFails(rest, s, p, i);
        assert !OptimalAfter(slices, p, n + 1);
      } else {
        var k :| 0 <= k <= n && !OptimalAfter(rest, p, k);
        assert !OptimalAfter(slices, p, k);
      }
    }
  }

  lemma NoSlices(p: U32)
    ensures DistinctEnds([], p)
  {
  }

  /** With a shared end time the map drops an entry, and two slices overlap at one depth. */
  lemma SharedEndOverlaps()
    ensures var slices := [Slice(1, 0, 10), Slice(1, 1, 10), Slice(1, 2, 20)];
            Assign(slices).depths == [0, 1, 1] && slices[2].start < slices[1].end
  {
    var a, b, c := Slice(1, 0, 10), Slice(1, 1, 10), Slice(1, 2, 20);
    AssignStep([], a);
    AssignStep([a], b);
    AssignStep([a, b], c);
    assert [] + [a] == [a] && [a] + [b] == [a, b] && [a, b] + [c] == [a, b, c];
    assert Assign([]).depths == [] && Assign([]).LanesOf(1) == [];
    hide Assign;
  }
}
