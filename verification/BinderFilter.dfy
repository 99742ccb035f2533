/** Binder transactions: slices begun and ended on the calling and the serving thread. */
module BinderFilter {
  import opened MachineWords
  import opened SliceFilter

  /** Dictionary indexes of the category and the slice names. */
  const BINDER: DataIndex := 1
  const TRANSACTION: DataIndex := 2
  const REPLY: DataIndex := 3
  const ASYNC_SEND: DataIndex := 4
  const ASYNC_RECEIVE: DataIndex := 5

  /**
   * The call stacks and the pending maps: `needReply` and `replyTo` are transNeedReply_ and
   * transReplyFilter_, `waiting` is transReplyWaitingReply_, `oneWay` holds the keys of asyncBinderEvents_.
   */
  datatype State = State(
    stacks: Stacks, needReply: map<U64, U32>, replyTo: map<U32, U32>, waiting: set<U64>, oneWay: set<U64>)
  {
    ghost predicate InRange() { stacks.InRange() }

    /** SendTraction for a reply. The slice ended is the topmost, whoever the reply is for. */
    function SendReply(ts: nat, tid: U32, tx: U64, dest: U32): (out: State)
      requires InRange()
      ensures out.InRange()
    {
      State(stacks.Complete(ts, tid, INVALID_U64, INVALID_U64).0, needReply,
            if tid in replyTo && replyTo[tid] == dest then replyTo - {tid} else replyTo,
            waiting + {tx}, oneWay)
    }

    /** SendTraction for a call: one that needs a reply opens a slice, a one-way one leaves a point. */
    function SendCall(ts: nat, tid: U32, tx: U64, isOneWay: bool): (out: State)
      requires InRange()
      ensures out.InRange()
    {
      if isOneWay
      then this.(stacks := stacks.Start(ts, 0, tid, BINDER, ASYNC_SEND).0, oneWay := oneWay + {tx})
      else this.(stacks := stacks.Start(ts, OPEN, tid, BINDER, TRANSACTION).0, needReply := needReply[tx := tid])
    }

    /** ReceiveTraction of a call that needs a reply; the transaction stays pending if a slice is missing. */
    function ReceiveCall(ts: nat, tid: U32, tx: U64): (out: State)
      requires InRange() && tx in needReply
      ensures out.InRange()
    {
      var (begun, row) := stacks.Start(ts, OPEN, tid, BINDER, REPLY);
      var serving := this.(stacks := begun, replyTo := replyTo[tid := needReply[tx]]);
      if row.None? || begun.ArgsRow(needReply[tx], BINDER, TRANSACTION).None? then serving
      else serving.(needReply := needReply - {tx})
    }

    function Receive(ts: nat, tid: U32, tx: U64): (out: State)
      requires InRange()
      ensures out.InRange()
    {
      if tx in waiting then
        this.(stacks := stacks.Complete(ts, tid, INVALID_U64, INVALID_U64).0, waiting := waiting - {tx})
      else if tx in needReply then ReceiveCall(ts, tid, tx)
      else if tx in oneWay then
        this.(stacks := stacks.Start(ts, 0, tid, BINDER, ASYNC_RECEIVE).0, oneWay := oneWay - {tx})
      else this
    }
  }

  const EMPTY := State(Stacks([], map[]), map[], map[], {}, {})

  // ---------- synchronous calls ----------

  /**
   * A call from `caller` to `callee`: sent, received, replied to, and the reply received. In between the
   * callee makes the inner calls, one after the other; they may call back into any waiting thread.
   */
  datatype Call = Call(caller: U32, callee: U32, tx: U64, reply: U64,
                       sent: nat, received: nat, replied: nat, returned: nat, inner: seq<Call>)

  ghost predicate WellFormed(c: Call) {
    && c.caller != c.callee
    && c.sent <= c.received <= c.replied <= c.returned
    && InSequence(c.inner, c.callee, c.received, c.replied)
  }

  /** The calls are made by this thread, one after the other, within the given time. */
  ghost predicate InSequence(calls: seq<Call>, caller: U32, from: nat, to: nat) {
    if calls == [] then from <= to
    else
      && calls[0].caller == caller && WellFormed(calls[0])
      && from <= calls[0].sent && InSequence(calls[1..], caller, calls[0].returned, to)
  }

  function Ids(c: Call): set<U64> {
    {c.tx, c.reply} + IdsOf(c.inner)
  }

  function IdsOf(calls: seq<Call>): set<U64> {
    if calls == [] then {} else Ids(calls[0]) + IdsOf(calls[1..])
  }

  function Callees(c: Call): set<U32> {
    {c.callee} + CalleesOf(c.inner)
  }

  function CalleesOf(calls: seq<Call>): set<U32> {
    if calls == [] then {} else Callees(calls[0]) + CalleesOf(calls[1..])
  }

  /** How deep calls nest. */
  function Height(c: Call): nat {
    1 + HeightOf(c.inner)
  }

  function HeightOf(calls: seq<Call>): nat {
    if calls == [] then 0
    else
      var h, rest := Height(calls[0]), HeightOf(calls[1..]);
      if h < rest then rest else h
  }

  /** The events of a call, in order. */
  function Process(s: State, c: Call): (out: State)
    requires s.InRange()
    ensures out.InRange()
    decreases c
  {
    Leave(ProcessAll(Enter(s, c), c.inner), c)
  }

  function ProcessAll(s: State, calls: seq<Call>): (out: State)
    requires s.InRange()
    ensures out.InRange()
    decreases calls
  {
    if calls == [] then s else ProcessAll(Process(s, calls[0]), calls[1..])
  }

  function Enter(s: State, c: Call): (out: State)
    requires s.InRange()
    ensures out.InRange()
  {
    s.SendCall(c.sent, c.caller, c.tx, false).Receive(c.received, c.callee, c.tx)
  }

  function Leave(s: State, c: Call): (out: State)
    requires s.InRange()
    ensures out.InRange()
  {
    s.SendReply(c.replied, c.callee, c.reply, c.caller).Receive(c.returned, c.caller, c.reply)
  }
}
