/** The binder filter object, which drives the slice filter object. */
module BinderFilterObject {
  import opened MachineWords
  import opened SliceFilter
  import opened BinderFilter
  import SliceFilterObject

  class Filter {
    const slices: SliceFilterObject.Filter
    var transNeedReply: map<U64, U32>
    var transReplyFilter: map<U32, U32>
    var transReplyWaitingReply: set<U64>
    var asyncBinderEvents: set<U64>

    ghost function View(): State reads this, slices {
      State(slices.StackView(), transNeedReply, transReplyFilter, transReplyWaitingReply, asyncBinderEvents)
    }

    constructor ()
      ensures View() == EMPTY
    {
      hide SliceFilterObject.Filter.Valid;
      slices := new SliceFilterObject.Filter();
      transNeedReply, transReplyFilter := map[], map[];
      transReplyWaitingReply, asyncBinderEvents := {}, {};
      new;
      assert slices.View().stacks == slices.StackView();
    }

    method SendTraction(ts: nat, tid: U32, tx: U64, destTid: U32, isReply: bool, isOneWay: bool)
      requires View().InRange()
      modifies this, slices`rows, slices`sliceStackMap
      ensures View() == if isReply then old(View()).SendReply(ts, tid, tx, destTid)
              else old(View()).SendCall(ts, tid, tx, isOneWay)
    {
      if isReply {
        if tid in transReplyFilter && transReplyFilter[tid] == destTid {
          var _ := slices.AddArgs(tid, BINDER, REPLY);
          transReplyFilter := transReplyFilter - {tid};
        }
        var _ := slices.CompleteSlice(ts, tid, INVALID_U64, INVALID_U64);
        transReplyWaitingReply := transReplyWaitingReply + {tx};
      } else if !isOneWay {
        var _ := slices.StartSlice(ts, OPEN, tid, BINDER, TRANSACTION);
        transNeedReply := transNeedReply[tx := tid];
      } else {
        var _ := slices.StartSlice(ts, 0, tid, BINDER, ASYNC_SEND);
        asyncBinderEvents := asyncBinderEvents + {tx};
      }
    }

    method ReceiveTraction(ts: nat, tid: U32, tx: U64)
      requires View().InRange()
      modifies this, slices`rows, slices`sliceStackMap
      ensures View() == old(View()).Receive(ts, tid, tx)
    {
      if tx in transReplyWaitingReply {
        var _ := slices.CompleteSlice(ts, tid, INVALID_U64, INVALID_U64);
        transReplyWaitingReply := transReplyWaitingReply - {tx};
        return;
      }
      if tx in transNeedReply {
        var replySliceId := slices.StartSlice(ts, OPEN, tid, BINDER, REPLY);
        transReplyFilter := transReplyFilter[tid := transNeedReply[tx]];
        if replySliceId.None? {
          return;
        }
        var transSliceId := slices.AddArgs(transNeedReply[tx], BINDER, TRANSACTION);
        if transSliceId.None? {
          return;
        }
        transNeedReply := transNeedReply - {tx};
        return;
      }
      if tx in asyncBinderEvents {
        var _ := slices.StartSlice(ts, 0, tid, BINDER, ASYNC_RECEIVE);
        asyncBinderEvents := asyncBinderEvents - {tx};
      }
    }
  }
}
