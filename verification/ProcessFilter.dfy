/** Internal ids of threads and processes. */
module ProcessFilter {
  import opened MachineWords

  /** A thread record; it belongs to no process until one is known. */
  datatype Thread = Thread(tid: U32, ipid: Option<nat>)

  /** The thread and process tables, the multimap from tids (in insertion order) and the map from pids. */
  datatype State = State(threads: seq<Thread>, processes: seq<U32>, tids: map<U32, seq<nat>>, pids: map<U32, nat>)
  {
    /** Internal ids stored in the maps and records are rows of the tables. */
    ghost predicate InRange() {
      && (forall t, k | t in tids && 0 <= k < |tids[t]| :: tids[t][k] < |threads|)
      && (forall p <- pids :: pids[p] < |processes|)
      && (forall i | 0 <= i < |threads| && threads[i].ipid.Some? :: threads[i].ipid.value < |processes|)
    }

    /** GetInternalTids. */
    function Itids(tid: U32): seq<nat> {
      if tid in tids then tids[tid] else []
    }

    predicate Unassigned(i: nat)
      requires i < |threads|
    {
      threads[i].ipid.None?
    }

    /** Thread i is assigned to the process with this pid. */
    predicate RunsIn(i: nat, pid: U32)
      requires i < |threads|
      requires threads[i].ipid.Some? ==> threads[i].ipid.value < |processes|
    {
      threads[i].ipid.Some? && processes[threads[i].ipid.value] == pid
    }

    /** NewThread. */
    function NewThread(tid: U32): (out: State)
      requires InRange()
      ensures out.InRange()
    {
      this.(threads := threads + [Thread(tid, None)], tids := tids[tid := Itids(tid) + [|threads|]])
    }

    /** NewProcess. */
    function NewProcess(pid: U32): (out: State)
      requires InRange() && pid !in pids
      ensures out.InRange()
    {
      this.(processes := processes + [pid], pids := pids[pid := |processes|])
    }

    function Assign(i: nat, ipid: nat): (out: State)
      requires InRange() && i < |threads| && ipid < |processes|
      ensures out.InRange()
    {
      this.(threads := threads[i := threads[i].(ipid := Some(ipid))])
    }
  }

  /** The idle thread and process exist from the start. */
  const INITIAL := State([Thread(0, Some(0))], [0], map[0 := [0]], map[0 := 0])

  /** GetInternalTid(tid, pid): a thread of that process, else the last unassigned one; scanning from k. */
  function Scan(s: State, ids: seq<nat>, pid: U32, found: Option<nat>): (r: Option<nat>)
    requires s.InRange() && forall k | 0 <= k < |ids| :: ids[k] < |s.threads|
    ensures r.Some? ==> r == found || r.value in ids
  {
    if ids == [] then found
    else if s.Unassigned(ids[0]) then Scan(s, ids[1..], pid, Some(ids[0]))
    else if s.RunsIn(ids[0], pid) then Some(ids[0])
    else Scan(s, ids[1..], pid, found)
  }

  /** The thread that GetOrCreateThreadWithPid starts from: both GetInternalTid lookups. */
  function Lookup(s: State, tid: U32, pid: U32): (r: Option<nat>)
    requires s.InRange()
    ensures r.Some? ==> r.value in s.Itids(tid)
  {
    if pid != 0 then Scan(s, s.Itids(tid), pid, None)
    else if s.Itids(tid) == [] then None
    else Some(s.Itids(tid)[|s.Itids(tid)| - 1])
  }

  datatype Result = Result(state: State, id: nat)

  /** GetOrCreateThreadWithPid. */
  function GetThread(s: State, tid: U32, pid: U32): (out: Result)
    requires s.InRange()
    ensures out.state.InRange() && out.id < |out.state.threads| && |s.threads| <= |out.state.threads|
    ensures |s.processes| <= |out.state.processes| && s.pids.Keys <= out.state.pids.Keys
    decreases pid !in s.pids, 1
  {
    var found := Lookup(s, tid, pid);
    var s1 := if found.Some? then s else s.NewThread(tid);
    var i := if found.Some? then found.value else |s.threads|;
    if s1.Unassigned(i) && pid != 0 then
      var p := CreateProcess(s1, pid);
      Result(p.state.Assign(i, p.id), i)
    else Result(s1, i)
  }

  /** CreateProcessMaybe: a new process gets its main thread at once. */
  function CreateProcess(s: State, pid: U32): (out: Result)
    requires s.InRange()
    ensures out.state.InRange() && out.id < |out.state.processes| && |s.threads| <= |out.state.threads|
    ensures |s.processes| <= |out.state.processes| && s.pids.Keys <= out.state.pids.Keys
    decreases pid !in s.pids, 0
  {
    if pid in s.pids then Result(s, s.pids[pid])
    else Result(GetThread(s.NewProcess(pid), pid, pid).state, |s.processes|)
  }

  /** UpdateOrCreateThreadWithNameIndex, apart from names. */
  function UpdateThread(s: State, tid: U32): (out: Result)
    requires s.InRange()
    ensures out.state.InRange()
  {
    if s.Itids(tid) != [] then Result(s, s.Itids(tid)[|s.Itids(tid)| - 1]) else Result(s.NewThread(tid), |s.threads|)
  }
}
