/** The process filter as an object: thread and process records, the tid multimap and the pid map updated in place. */
module ProcessFilterObject {
  import opened MachineWords
  import opened ProcessFilter
  import Ids = ProcessIds

  class Filter {
    var threads: seq<Thread>
    var processes: seq<U32>
    var tidMappingSet: map<U32, seq<nat>>
    var pidToInternalPid: map<U32, nat>

    ghost function View(): State reads this { State(threads, processes, tidMappingSet, pidToInternalPid) }

    constructor ()
      ensures View() == INITIAL && View().InRange() && Ids.Sound(View())
    {
      threads, processes := [Thread(0, Some(0))], [0];
      tidMappingSet, pidToInternalPid := map[0 := [0]], map[0 := 0];
      new;
      Ids.InitialSound();
    }

    /** The read-only scan over the tid's threads: a thread of that process wins, else the last unassigned one. */
    method GetInternalTidOfPid(tid: U32, pid: U32) returns (found: Option<nat>)
      requires View().InRange()
      ensures found == Scan(View(), View().Itids(tid), pid, None)
    {
      var ids := if tid in tidMappingSet then tidMappingSet[tid] else [];
      found := None;
      var k := 0;
      while k < |ids|
        invariant k <= |ids|
        invariant Scan(View(), ids, pid, None) == Scan(View(), ids[k..], pid, found)
      {
        var i := ids[k];
        if threads[i].ipid.None? {
          found := Some(i);
        } else if processes[threads[i].ipid.value] == pid {
          found := Some(i);
          return;
        }
        k := k + 1;
      }
    }

    /** The thread most recently created for the tid. */
    method GetInternalTid(tid: U32) returns (found: Option<nat>)
      requires View().InRange()
      ensures found == Lookup(View(), tid, 0)
    {
      if tid in tidMappingSet && tidMappingSet[tid] != [] {
        found := Some(tidMappingSet[tid][|tidMappingSet[tid]| - 1]);
      } else {
        found := None;
      }
    }

    method NewThread(tid: U32) returns (id: nat)
      requires View().InRange()
      modifies this`threads, this`tidMappingSet
      ensures View() == old(View()).NewThread(tid) && id == old(|threads|)
    {
      id := |threads|;
      threads := threads + [Thread(tid, None)];
      tidMappingSet := tidMappingSet[tid := (if tid in tidMappingSet then tidMappingSet[tid] else []) + [id]];
    }

    method NewProcess(pid: U32) returns (id: nat)
      requires View().InRange() && pid !in pidToInternalPid
      modifies this`processes, this`pidToInternalPid
      ensures View() == old(View()).NewProcess(pid) && id == old(|processes|)
    {
      id := |processes|;
      processes := processes + [pid];
      pidToInternalPid := pidToInternalPid[pid := id];
    }

    method GetOrCreateThreadWithPid(tid: U32, pid: U32) returns (id: nat)
      requires View().InRange()
      modifies this
      ensures View() == GetThread(old(View()), tid, pid).state && id == GetThread(old(View()), tid, pid).id
      ensures View().InRange()
      decreases pid !in pidToInternalPid, 1
    {
      var found: Option<nat>;
      if pid == 0 {
        found := GetInternalTid(tid);
      } else {
        found := GetInternalTidOfPid(tid, pid);
      }
      if found.Some? {
        id := found.value;
      } else {
        id := NewThread(tid);
      }
      if threads[id].ipid.None? && pid != 0 {
        var ipid := CreateProcessMaybe(pid);
        threads := threads[id := threads[id].(ipid := Some(ipid))];
      }
    }

    method CreateProcessMaybe(pid: U32) returns (id: nat)
      requires View().InRange()
      modifies this
      ensures View() == CreateProcess(old(View()), pid).state && id == CreateProcess(old(View()), pid).id
      ensures View().InRange()
      decreases pid !in pidToInternalPid, 0
    {
      if pid in pidToInternalPid {
        id := pidToInternalPid[pid];
      } else {
        id := NewProcess(pid);
        var main := GetOrCreateThreadWithPid(pid, pid);
      }
    }

    method UpdateOrCreateThread(tid: U32) returns (id: nat)
      requires View().InRange()
      modifies this`threads, this`tidMappingSet
      ensures View() == UpdateThread(old(View()), tid).state && id == UpdateThread(old(View()), tid).id
    {
      if tid in tidMappingSet && tidMappingSet[tid] != [] {
        id := tidMappingSet[tid][|tidMappingSet[tid]| - 1];
      } else {
        id := NewThread(tid);
      }
    }
  }
}
