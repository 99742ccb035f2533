/** The frame filter as an object: per-thread queues of frames and the frame and GPU tables, updated event by event. */
module FrameFilterObject {
  import opened MachineWords
  import opened FrameFilter

  class Filter {
    var vsyncRenderSlice: map<U32, seq<Frame>>
    var frameSlice: seq<Row>
    var gpuSlice: seq<GpuRow>
    /** The actual row of the frame that a thread gave each frame number. */
    var dstRenderSlice: map<U32, map<U32, nat>>

    ghost function View(): State reads this { State(vsyncRenderSlice, frameSlice, gpuSlice) }

    constructor ()
      ensures View() == EMPTY && InRange(View()) && dstRenderSlice == map[]
    {
      vsyncRenderSlice, frameSlice, gpuSlice, dstRenderSlice := map[], [], [], map[];
    }

    predicate Waiting(itid: U32) reads this {
      itid in vsyncRenderSlice && vsyncRenderSlice[itid] != []
    }

    method SetEndTimeAndFlag(f: Frame, ts: U64)
      requires f.row < |frameSlice|
      modifies this`frameSlice
      ensures frameSlice == Finish(old(frameSlice), f, ts)
    {
      var row := frameSlice[f.row];
      frameSlice := frameSlice[f.row := row.(dur := Sub64(ts, row.ts),
          flag := if f.expectedEnd >= ts then IN_TIME else LATE)];
    }

    method BeginVsyncEvent(ts: U64, itid: U32, expectStart: U64, expectEnd: U64)
      requires InRange(View())
      modifies this`vsyncRenderSlice, this`frameSlice
      ensures View() == Step(old(View()), Begin(ts, itid, expectStart, expectEnd)) && InRange(View())
    {
      var row := |frameSlice|;
      frameSlice := frameSlice + [Row(ts, itid, INVALID_U64, PENDING, true)];
      frameSlice := frameSlice + [Row(expectStart, itid, Sub64(expectEnd, expectStart), PENDING, false)];
      var frame := Frame(row, row + 1, expectEnd, true, false, false, INVALID_U32, INVALID_U64);
      if itid in vsyncRenderSlice {
        vsyncRenderSlice := vsyncRenderSlice[itid := vsyncRenderSlice[itid] + [frame]];
      } else {
        vsyncRenderSlice := vsyncRenderSlice[itid := [frame]];
      }
      assert vsyncRenderSlice[itid] == old(View()).Queue(itid) + [frame];
      assert frameSlice == Step(old(View()), Begin(ts, itid, expectStart, expectEnd)).rows;
    }

    method MarkRSOnDoCompositionEvent(ts: U64, itid: U32) returns (ok: bool)
      requires InRange(View())
      modifies this`vsyncRenderSlice
      ensures View() == Step(old(View()), MarkRs(ts, itid)) && InRange(View())
      ensures ok == (old(View()).Queue(itid) != [])
    {
      ok := Waiting(itid);
      if ok {
        var q := vsyncRenderSlice[itid];
        vsyncRenderSlice := vsyncRenderSlice[itid := q[|q| - 1 := q[|q| - 1].(isRs := true)]];
      }
    }

    /** Numbers the first frame, and notes it under its thread and number. */
    method BeginRSTransactionData(ts: U64, itid: U32, frameNum: U32) returns (ok: bool)
      requires InRange(View())
      modifies this`vsyncRenderSlice, this`dstRenderSlice
      ensures View() == Step(old(View()), SetNumber(ts, itid, frameNum)) && InRange(View())
      ensures ok == (old(View()).Queue(itid) != [])
      ensures var known := if itid in old(dstRenderSlice) then old(dstRenderSlice)[itid] else map[];
              dstRenderSlice ==
              if ok then old(dstRenderSlice)[itid := known[frameNum := old(View()).Queue(itid)[0].row]]
              else old(dstRenderSlice)
    {
      ok := Waiting(itid);
      if ok {
        var q := vsyncRenderSlice[itid];
        vsyncRenderSlice := vsyncRenderSlice[itid := q[0 := q[0].(frameNum := frameNum)]];
        if itid !in dstRenderSlice {
          dstRenderSlice := dstRenderSlice[itid := map[]];
        }
        dstRenderSlice := dstRenderSlice[itid := dstRenderSlice[itid][frameNum := q[0].row]];
      }
    }

    /** Not ok without a frame, and for an app frame whose number never came, which is erased. */
    method EndVsyncEvent(ts: U64, itid: U32) returns (ok: bool)
      requires InRange(View())
      modifies this`vsyncRenderSlice, this`frameSlice
      ensures View() == Step(old(View()), EndVsync(ts, itid)) && InRange(View())
      ensures var q := old(View()).Queue(itid);
              ok == (q != [] && var last := q[|q| - 1]; last.isRs || last.frameNum != INVALID_U32)
    {
      if !Waiting(itid) {
        return false;
      }
      var q := vsyncRenderSlice[itid];
      var last, rest := q[|q| - 1], q[..|q| - 1];
      assert FramesInRange(q, |frameSlice|);
      if last.isRs {
        if last.gpuEnd {
          SetEndTimeAndFlag(last, ts);
          vsyncRenderSlice := vsyncRenderSlice[itid := rest];
        } else {
          vsyncRenderSlice := vsyncRenderSlice[itid := rest + [last.(vsyncEnd := true)]];
        }
        return true;
      }
      SetEndTimeAndFlag(last, ts);
      ok := last.frameNum != INVALID_U32;
      if !ok {
        frameSlice := frameSlice[last.row := frameSlice[last.row].(flag := ERASED)];
        frameSlice := frameSlice[last.expectedRow := frameSlice[last.expectedRow].(flag := ERASED)];
      }
      vsyncRenderSlice := vsyncRenderSlice[itid := rest];
    }

    method StartFrameQueue(ts: U64, itid: U32) returns (ok: bool)
      requires InRange(View())
      modifies this`vsyncRenderSlice
      ensures View() == Step(old(View()), StartQueue(ts, itid)) && InRange(View())
      ensures ok == (old(View()).Queue(itid) != [])
    {
      ok := Waiting(itid);
      if ok {
        var q := vsyncRenderSlice[itid];
        vsyncRenderSlice := vsyncRenderSlice[itid := q[0 := q[0].(gpuEnd := false, queueStart := ts)]];
      }
    }

    method EndFrameQueue(ts: U64, itid: U32) returns (ok: bool)
      requires InRange(View())
      modifies this`vsyncRenderSlice, this`frameSlice, this`gpuSlice
      ensures View() == Step(old(View()), EndQueue(ts, itid)) && InRange(View())
      ensures ok == (old(View()).Queue(itid) != [])
    {
      ok := Waiting(itid);
      if ok {
        var q := vsyncRenderSlice[itid];
        var first := q[0];
        assert FramesInRange(q, |frameSlice|);
        gpuSlice := gpuSlice + [GpuRow(first.row, Sub64(ts, first.queueStart))];
        if first.vsyncEnd {
          SetEndTimeAndFlag(first, ts);
          vsyncRenderSlice := vsyncRenderSlice[itid := q[1..]];
        } else {
          vsyncRenderSlice := vsyncRenderSlice[itid := [first.(gpuEnd := true)] + q[1..]];
        }
      }
    }
  }
}
