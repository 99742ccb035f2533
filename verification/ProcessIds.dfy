/** Internal ids are stable: a pair of tid and pid names one thread for ever. */
module ProcessIds {
  import opened MachineWords
  import opened ProcessFilter

  /** The multimap lists exactly the threads of each tid. */
  ghost predicate TidsOk(s: State)
    requires s.InRange()
  {
    && (forall t, k | t in s.tids && 0 <= k < |s.tids[t]| :: s.threads[s.tids[t][k]].tid == t)
    && (forall i | 0 <= i < |s.threads| :: Listed(s, i))
  }

  ghost predicate Listed(s: State, i: nat)
    requires i < |s.threads|
  {
    i in s.Itids(s.threads[i].tid)
  }

  /** The pid map and the process table are inverse to each other. */
  ghost predicate PidsOk(s: State)
    requires s.InRange()
  {
    && (forall p <- s.pids :: s.processes[s.pids[p]] == p)
    && (forall i | 0 <= i < |s.processes| :: s.processes[i] in s.pids && s.pids[s.processes[i]] == i)
  }

  /** Of the threads with one tid, at most one is unassigned and no two belong to one process. */
  ghost predicate Apart(s: State) {
    forall i, j | 0 <= i < j < |s.threads| && s.threads[i].tid == s.threads[j].tid ::
        s.threads[i].ipid != s.threads[j].ipid
  }

  ghost predicate Ok(s: State) {
    s.InRange() && TidsOk(s) && PidsOk(s) && Apart(s)
  }

  /** Ids only come to mean more: records keep their tid and their process, tables and maps grow. */
  ghost predicate Extends(s: State, out: State) {
    && |s.threads| <= |out.threads| && s.processes <= out.processes
    && (forall i | 0 <= i < |s.threads| ::
          out.threads[i].tid == s.threads[i].tid && (s.threads[i].ipid.Some? ==> out.threads[i] == s.threads[i]))
    && s.pids.Keys <= out.pids.Keys && forall p <- s.pids :: out.pids[p] == s.pids[p]
  }

  lemma ExtendsTwice(s: State, mid: State, out: State)
    requires Extends(s, mid) && Extends(mid, out)
    ensures Extends(s, out)
  {
  }

  /** Thread i stands for this tid in the process with this pid. */
  ghost predicate Owns(s: State, i: nat, tid: U32, pid: U32)
    requires s.InRange()
  {
    i < |s.threads| && s.threads[i].tid == tid && s.RunsIn(i, pid)
  }

  // ---------- the lookups ----------

  lemma {:induction false} ScanFinds(s: State, ids: seq<nat>, pid: U32, found: Option<nat>)
    requires s.InRange() && forall k | 0 <= k < |ids| :: ids[k] < |s.threads|
    ensures var r := Scan(s, ids, pid, found);
            if exists k :: 0 <= k < |ids| && s.RunsIn(ids[k], pid) then
              r.Some? && r.value in ids && s.RunsIn(r.value, pid)
            else if exists k :: 0 <= k < |ids| && s.Unassigned(ids[k]) then
              r.Some? && r.value in ids && s.Unassigned(r.value)
            else r == found
  {
    if ids != [] {
      var rest := ids[1..];
      assert ids == [ids[0]] + rest;
      ScanFinds(s, rest, pid, if s.Unassigned(ids[0]) then Some(ids[0]) else found);
      assert forall k | 0 <= k < |rest| :: rest[k] == ids[k + 1];
      assert (exists k :: 0 <= k < |ids| && s.RunsIn(ids[k], pid)) ==>
             s.RunsIn(ids[0], pid) || exists k :: 0 <= k < |rest| && s.RunsIn(rest[k], pid) by {
        if k :| 0 < k < |ids| && s.RunsIn(ids[k], pid) { assert rest[k - 1] == ids[k]; }
      }
      assert (exists k :: 0 <= k < |ids| && s.Unassigned(ids[k])) ==>
             s.Unassigned(ids[0]) || exists k :: 0 <= k < |rest| && s.Unassigned(rest[k]) by {
        if k :| 0 < k < |ids| && s.Unassigned(ids[k]) { assert rest[k - 1] == ids[k]; }
      }
    }
  }

  /** The pair's own thread if there is one, else the unassigned thread of the tid, else nothing. */
  lemma LookupFinds(s: State, tid: U32, pid: U32)
    requires Ok(s) && pid != 0
    ensures var r := Lookup(s, tid, pid);
            match r
            case None =>
              forall i | 0 <= i < |s.threads| && s.threads[i].tid == tid :: !s.Unassigned(i) && !s.RunsIn(i, pid)
            case Some(i) =>
              i < |s.threads| && s.threads[i].tid == tid
              && (s.RunsIn(i, pid)
                  || (s.Unassigned(i)
                      && forall j | 0 <= j < |s.threads| && s.threads[j].tid == tid :: !s.RunsIn(j, pid)))
  {
    var ids := s.Itids(tid);
    ScanFinds(s, ids, pid, None);
    hide PidsOk, Apart, Scan;
    forall j | 0 <= j < |s.threads| && s.threads[j].tid == tid ensures exists k :: 0 <= k < |ids| && ids[k] == j {
      assert Listed(s, j);
    }
  }

  // ---------- the elementary updates ----------

  lemma NewThreadKeeps(s: State, tid: U32)
    requires Ok(s) && forall i | 0 <= i < |s.threads| && s.threads[i].tid == tid :: !s.Unassigned(i)
    ensures Ok(s.NewThread(tid)) && Extends(s, s.NewThread(tid))
  {
    hide TidsOk;
    NewThreadListed(s, tid);
  }

  lemma NewThreadListed(s: State, tid: U32)
    requires s.InRange() && TidsOk(s)
    ensures TidsOk(s.NewThread(tid))
  {
    hide Listed;
    var out := s.NewThread(tid);
    forall i | 0 <= i < |out.threads| ensures Listed(out, i) {
      NewThreadLists(s, tid, i);
    }
  }

  lemma NewThreadLists(s: State, tid: U32, i: nat)
    requires s.InRange() && i <= |s.threads| && (i < |s.threads| ==> Listed(s, i))
    ensures Listed(s.NewThread(tid), i)
  {
    var out := s.NewThread(tid);
    assert out.Itids(tid)[|s.Itids(tid)|] == |s.threads|;
    if i < |s.threads| {
      assert s.Itids(s.threads[i].tid) <= out.Itids(s.threads[i].tid);
    }
  }

  lemma NewProcessKeeps(s: State, pid: U32)
    requires Ok(s) && pid !in s.pids
    ensures Ok(s.NewProcess(pid)) && Extends(s, s.NewProcess(pid))
  {
    hide Apart, TidsOk;
    var out := s.NewProcess(pid);
    TidsDepend(s, out);
    assert forall i | 0 <= i < |s.processes| :: out.processes[i] == s.processes[i];
    assert Apart(out) by { ApartDepends(s, out); }
  }

  lemma TidsDepend(s: State, out: State)
    requires s.InRange() && TidsOk(s) && out.InRange() && out.tids == s.tids && |out.threads| == |s.threads|
    requires forall i | 0 <= i < |s.threads| :: out.threads[i].tid == s.threads[i].tid
    ensures TidsOk(out)
  {
    forall i | 0 <= i < |out.threads| ensures Listed(out, i) {
      assert Listed(s, i);
    }
  }

  lemma ApartDepends(s: State, out: State)
    requires Apart(s) && out.threads == s.threads
    ensures Apart(out)
  {
  }

  lemma AssignKeeps(s: State, i: nat, ipid: nat)
    requires Ok(s) && i < |s.threads| && ipid < |s.processes| && s.Unassigned(i)
    requires forall j | 0 <= j < |s.threads| && s.threads[j].tid == s.threads[i].tid :: s.threads[j].ipid != Some(ipid)
    ensures Ok(s.Assign(i, ipid)) && Extends(s, s.Assign(i, ipid))
  {
    hide TidsOk;
    TidsDepend(s, s.Assign(i, ipid));
  }

  // ---------- the mutually recursive operations ----------

  /** Asking for a thread of a process that exists touches only the thread it returns. */
  lemma GetKnown(s: State, tid: U32, pid: U32)
    requires Ok(s) && pid != 0 && pid in s.pids
    ensures var out := GetThread(s, tid, pid);
            && Ok(out.state) && Extends(s, out.state) && Owns(out.state, out.id, tid, pid)
            && out.state.pids == s.pids && out.state.processes == s.processes
            && forall j | 0 <= j < |out.state.threads| && j != out.id ::
                 j < |s.threads| && out.state.threads[j] == s.threads[j]
  {
    hide Scan, TidsOk, Apart;
    LookupFinds(s, tid, pid);
    var found := Lookup(s, tid, pid);
    if found.None? {
      NewThreadKeeps(s, tid);
    }
    var s1 := if found.Some? then s else s.NewThread(tid);
    var i := if found.Some? then found.value else |s.threads|;
    if s1.Unassigned(i) {
      AssignKeeps(s1, i, s1.pids[pid]);
      ExtendsTwice(s, s1, s1.Assign(i, s1.pids[pid]));
    }
  }

  ghost predicate HasMain(s: State, pid: U32)
    requires s.InRange()
  {
    exists i :: Owns(s, i, pid, pid)
  }

  /** What CreateProcess does: one pid more, and only threads with that number as tid are touched. */
  lemma CreateKeeps(s: State, pid: U32)
    requires Ok(s) && pid != 0
    ensures var out := CreateProcess(s, pid);
            && Ok(out.state) && Extends(s, out.state)
            && out.state.pids == s.pids[pid := out.id]
            && (pid in s.pids ==> out.state == s)
            && (pid !in s.pids ==> out.id == |s.processes| && HasMain(out.state, pid))
            && (forall j | 0 <= j < |out.state.threads| && out.state.threads[j].tid != pid ::
                  j < |s.threads| && out.state.threads[j] == s.threads[j])
            && (pid !in s.pids ==> forall j | 0 <= j < |s.threads| && s.threads[j] == Thread(pid, None) ::
                  out.state.threads[j] == Thread(pid, Some(out.id)))
  {
    hide GetThread, Lookup, Scan, TidsOk, Apart;
    if pid !in s.pids {
      var s1 := s.NewProcess(pid);
      NewProcessKeeps(s, pid);
      GetKnown(s1, pid, pid);
      var out := GetThread(s1, pid, pid);
      ExtendsTwice(s, s1, out.state);
      forall j | 0 <= j < |s.threads| && s.threads[j] == Thread(pid, None)
        ensures out.state.threads[j] == Thread(pid, Some(|s.processes|))
      {
        TakesUnassigned(s1, pid, j);
      }
    }
  }

  /** A process without threads takes the unassigned thread it is offered. */
  lemma TakesUnassigned(s: State, pid: U32, j: nat)
    requires Ok(s) && pid != 0 && pid in s.pids && j < |s.threads| && s.threads[j] == Thread(pid, None)
    requires forall i | 0 <= i < |s.threads| :: s.threads[i].ipid != Some(s.pids[pid])
    ensures GetThread(s, pid, pid).state.threads[j] == Thread(pid, Some(s.pids[pid]))
  {
    hide Scan, TidsOk;
    LookupFinds(s, pid, pid);
  }

  /** What GetThread returns belongs to the pair asked for. */
  lemma GetKeeps(s: State, tid: U32, pid: U32)
    requires Ok(s) && pid != 0
    ensures var out := GetThread(s, tid, pid);
            && Ok(out.state) && Extends(s, out.state) && Owns(out.state, out.id, tid, pid)
            && out.state.pids.Keys <= s.pids.Keys + {pid}
            && (pid !in s.pids ==> HasMain(out.state, pid))
  {
    hide Scan, TidsOk, Apart, CreateProcess;
    if pid in s.pids {
      GetKnown(s, tid, pid);
    } else {
      LookupFinds(s, tid, pid);
      var found := Lookup(s, tid, pid);
      if found.None? {
        NewThreadKeeps(s, tid);
      }
      var s1 := if found.Some? then s else s.NewThread(tid);
      var i := if found.Some? then found.value else |s.threads|;
      assert s1.Unassigned(i);
      CreateKeeps(s1, pid);
      AssignCreated(s1, i, pid);
      ExtendsTwice(s, s1, GetThread(s, tid, pid).state);
    }
  }

  lemma AssignCreated(s: State, i: nat, pid: U32)
    requires Ok(s) && pid != 0 && pid !in s.pids && i < |s.threads| && s.Unassigned(i)
    ensures var p := CreateProcess(s, pid);
            var out := p.state.Assign(i, p.id);
            && Ok(out) && Extends(s, out) && Owns(out, i, s.threads[i].tid, pid)
            && out.pids == s.pids[pid := p.id] && HasMain(out, pid)
  {
    hide CreateProcess, TidsOk, Apart, GetThread;
    CreateKeeps(s, pid);
    var p := CreateProcess(s, pid);
    if s.threads[i].tid == pid {
      assert s.threads[i] == Thread(pid, None);
      assert p.state.Assign(i, p.id) == p.state;
    } else {
      AssignKeeps(p.state, i, p.id);
      ExtendsTwice(s, p.state, p.state.Assign(i, p.id));
      MainStays(p.state, p.state.Assign(i, p.id), pid);
    }
  }

  lemma OwnsStays(s: State, out: State, i: nat, tid: U32, pid: U32)
    requires s.InRange() && out.InRange() && Extends(s, out) && Owns(s, i, tid, pid)
    ensures Owns(out, i, tid, pid)
  {
  }

  lemma MainStays(s: State, out: State, pid: U32)
    requires s.InRange() && out.InRange() && Extends(s, out) && HasMain(s, pid)
    ensures HasMain(out, pid)
  {
    var i :| Owns(s, i, pid, pid);
    OwnsStays(s, out, i, pid, pid);
  }

  // ---------- runs ----------

  datatype Op = Get(tid: U32, pid: U32) | Create(pid: U32) | Update(tid: U32)

  function Step(s: State, op: Op): (out: Result)
    requires s.InRange()
    ensures out.state.InRange()
  {
    match op
    case Get(tid, pid) => GetThread(s, tid, pid)
    case Create(pid) => CreateProcess(s, pid)
    case Update(tid) => UpdateThread(s, tid)
  }

  function Run(s: State, ops: seq<Op>): (out: State)
    requires s.InRange()
    ensures out.InRange()
    decreases |ops|
  {
    if ops == [] then s else Run(Step(s, ops[0]).state, ops[1..])
  }

  /** Every process but the idle one owns a main thread. */
  ghost predicate MainsOk(s: State)
    requires s.InRange()
  {
    0 in s.pids && forall p <- s.pids | p != 0 :: HasMain(s, p)
  }

  ghost predicate Sound(s: State) {
    Ok(s) && MainsOk(s)
  }

  lemma MainsStay(s: State, out: State, pid: U32)
    requires s.InRange() && out.InRange() && MainsOk(s) && Extends(s, out)
    requires out.pids.Keys <= s.pids.Keys + {pid} && (pid !in s.pids ==> HasMain(out, pid))
    ensures MainsOk(out)
  {
    forall p <- out.pids | p != 0 ensures HasMain(out, p) {
      if p in s.pids { MainStays(s, out, p); }
    }
  }

  /** Without a pid only the tid decides. */
  lemma ByTidKeeps(s: State, tid: U32)
    requires Ok(s)
    ensures var t := UpdateThread(s, tid).state;
            GetThread(s, tid, 0).state == t && Ok(t) && Extends(s, t) && t.pids == s.pids
  {
    if s.Itids(tid) == [] {
      hide PidsOk;
      assert forall i | 0 <= i < |s.threads| && s.threads[i].tid == tid :: Listed(s, i);
      NewThreadKeeps(s, tid);
    }
  }

  lemma StepKeeps(s: State, op: Op)
    requires Sound(s)
    ensures Sound(Step(s, op).state) && Extends(s, Step(s, op).state)
  {
    hide TidsOk, PidsOk, Apart, MainsOk, Extends, GetThread, CreateProcess, UpdateThread, Scan;
    ZeroKnown(s);
    match op
    case Get(tid, pid) =>
      if pid == 0 {
        ByTidKeeps(s, tid);
        MainsStay(s, Step(s, op).state, 0);
      } else {
        GetKeeps(s, tid, pid);
        MainsStay(s, Step(s, op).state, pid);
      }
    case Create(pid) =>
      if pid == 0 {
        CreateZero(s);
      } else {
        CreateKeeps(s, pid);
        MainsStay(s, Step(s, op).state, pid);
      }
    case Update(tid) =>
      ByTidKeeps(s, tid);
      MainsStay(s, Step(s, op).state, 0);
  }

  lemma ZeroKnown(s: State)
    requires s.InRange() && MainsOk(s)
    ensures 0 in s.pids
  {
  }

  lemma CreateZero(s: State)
    requires s.InRange() && 0 in s.pids
    ensures CreateProcess(s, 0).state == s && Extends(s, s)
  {
  }

  lemma {:induction false} RunKeeps(s: State, ops: seq<Op>)
    requires Sound(s)
    ensures Sound(Run(s, ops)) && Extends(s, Run(s, ops))
    decreases |ops|
  {
    hide Sound, Step;
    SoundInRange(s);
    if ops != [] {
      StepKeeps(s, ops[0]);
      RunKeeps(Step(s, ops[0]).state, ops[1..]);
      ExtendsTwice(s, Step(s, ops[0]).state, Run(s, ops));
    }
  }

  lemma SoundInRange(s: State)
    requires Sound(s)
    ensures s.InRange()
  {
  }

  lemma InitialSound()
    ensures Sound(INITIAL)
  {
    assert INITIAL.tids[0][0] == 0;
  }

  /** The owner of a pair is what a lookup of the pair returns, changing nothing. */
  lemma OwnerIsFound(s: State, i: nat, tid: U32, pid: U32)
    requires Ok(s) && pid != 0 && Owns(s, i, tid, pid)
    ensures GetThread(s, tid, pid) == Result(s, i)
  {
    hide Scan, TidsOk;
    LookupFinds(s, tid, pid);
  }

  lemma OwnsOne(s: State, i: nat, tid: U32, pid: U32, tid': U32, pid': U32)
    requires s.InRange() && Owns(s, i, tid, pid) && Owns(s, i, tid', pid')
    ensures tid == tid' && pid == pid'
  {
  }

  /** Two lookups, however far apart in a run, return the same internal id exactly when they ask for the same pair. */
  lemma IdsAreStable(before: seq<Op>, tid: U32, pid: U32, between: seq<Op>, tid': U32, pid': U32)
    requires pid != 0 && pid' != 0
    ensures INITIAL.InRange()
    ensures var first := GetThread(Run(INITIAL, before), tid, pid);
            var later := Run(first.state, between);
            var second := GetThread(later, tid', pid');
            && (second.id == first.id <==> tid' == tid && pid' == pid)
            && (tid' == tid && pid' == pid ==> second.state == later)
  {
    InitialSound();
    hide MainsOk, Extends, GetThread, TidsOk, PidsOk, Apart, Owns;
    RunKeeps(INITIAL, before);
    var s := Run(INITIAL, before);
    var first := GetThread(s, tid, pid);
    GetKeeps(s, tid, pid);
    StepKeeps(s, Get(tid, pid));
    RunKeeps(first.state, between);
    var later := Run(first.state, between);
    OwnsStays(first.state, later, first.id, tid, pid);
    if tid' == tid && pid' == pid {
      OwnerIsFound(later, first.id, tid, pid);
    } else {
      GetKeeps(later, tid', pid');
      var second := GetThread(later, tid', pid');
      OwnsStays(later, second.state, first.id, tid, pid);
      if second.id == first.id {
        OwnsOne(second.state, first.id, tid, pid, tid', pid');
      }
    }
  }

  /** In every reachable state a tid has at most one unassigned thread and every process has its main thread. */
  lemma ReachableTables(ops: seq<Op>)
    ensures INITIAL.InRange()
    ensures var s := Run(INITIAL, ops);
            && (forall i, j | 0 <= i < j < |s.threads| && s.threads[i].tid == s.threads[j].tid ::
                  !(s.Unassigned(i) && s.Unassigned(j)))
            && (forall q | 0 <= q < |s.processes| && s.processes[q] != 0 ::
                  exists i | 0 <= i < |s.threads| :: s.threads[i] == Thread(s.processes[q], Some(q)))
  {
    InitialSound();
    hide TidsOk, PidsOk, Apart, MainsOk, Run;
    RunKeeps(INITIAL, ops);
    var s := Run(INITIAL, ops);
    OneUnassigned(s);
    forall q | 0 <= q < |s.processes| && s.processes[q] != 0
      ensures exists i | 0 <= i < |s.threads| :: s.threads[i] == Thread(s.processes[q], Some(q))
    {
      MainOf(s, q);
    }
  }

  lemma OneUnassigned(s: State)
    requires Apart(s)
    ensures forall i, j | 0 <= i < j < |s.threads| && s.threads[i].tid == s.threads[j].tid ::
              !(s.Unassigned(i) && s.Unassigned(j))
  {
  }

  lemma MainOf(s: State, q: nat)
    requires s.InRange() && PidsOk(s) && MainsOk(s) && q < |s.processes| && s.processes[q] != 0
    ensures exists i | 0 <= i < |s.threads| :: s.threads[i] == Thread(s.processes[q], Some(q))
  {
    assert HasMain(s, s.processes[q]);
    var i: nat :| Owns(s, i, s.processes[q], s.processes[q]);
    assert s.threads[i] == Thread(s.processes[q], Some(q));
  }
}
