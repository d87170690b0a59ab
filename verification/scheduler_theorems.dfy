/** What every run of the scheduler keeps. */
module SchedulerTheorems {
  import opened Lists
  import opened Scheduler

  // ----- lists -----

  lemma RemoveAtTimes(q: seq<int>, i: nat, pid: int)
    requires i < |q|
    ensures Times(q, pid) == Times(RemoveAt(q, i), pid) + (if q[i] == pid then 1 else 0)
  {
    var a, z := q[..i], q[i + 1..];
    assert q == a + ([q[i]] + z);
    TimesAppend(a, [q[i]] + z, pid);
    TimesAppend([q[i]], z, pid);
    TimesAppend(a, z, pid);
    OneTime(q[i], pid);
  }

  lemma OneTime(x: int, pid: int)
    ensures Times([x], pid) == if x == pid then 1 else 0
  {
    assert [x][1..] == [];
  }

  lemma PutTimes(q: seq<int>, x: int, pid: int)
    ensures Times(q + [x], pid) == Times(q, pid) + (if x == pid then 1 else 0)
  {
    TimesAppend(q, [x], pid);
    OneTime(x, pid);
  }

  lemma RemoveTimes(q: seq<int>, x: int, pid: int)
    requires x in q
    ensures Times(q, pid) == Times(Remove(q, x), pid) + (if x == pid then 1 else 0)
  {
    RemoveAtTimes(q, IndexOf(q, x), pid);
  }

  lemma Regroup(a: seq<int>, b: seq<int>, c: seq<int>)
    ensures a + (b + c) == a + b + c
  {
  }

  lemma {:induction false} CpusAppend(a: seq<Cpu>, b: seq<Cpu>)
    ensures CpuPids(a + b) == CpuPids(a) + CpuPids(b)
    ensures IdleCount(a + b) == IdleCount(a) + IdleCount(b)
  {
    if a == [] {
      assert a + b == b;
    } else {
      CpusAppend(a[1..], b);
      assert (a + b)[1..] == a[1..] + b;
      Regroup(if a[0].running then [a[0].pid] else [], CpuPids(a[1..]), CpuPids(b));
    }
  }

  lemma OneCpu(c: Cpu)
    ensures CpuPids([c]) == if c.running then [c.pid] else []
    ensures IdleCount([c]) == if c.running then 0 else 1
  {
    assert [c][1..] == [];
  }

  /** A CPU entry taken out and put back changed at the end of the list. */
  lemma CpuMoved(cpus: seq<Cpu>, i: nat, c: Cpu, pid: int)
    requires i < |cpus| && c.socket == cpus[i].socket && DistinctSockets(cpus)
    ensures var r := RemoveAt(cpus, i) + [c];
      && Times(CpuPids(r), pid) + (if cpus[i].running && cpus[i].pid == pid then 1 else 0)
         == Times(CpuPids(cpus), pid) + (if c.running && c.pid == pid then 1 else 0)
      && IdleCount(r) + (if cpus[i].running then 0 else 1) == IdleCount(cpus) + (if c.running then 0 else 1)
      && DistinctSockets(r)
  {
    hide Times, CpuPids, IdleCount, DistinctSockets;
    var a, z := cpus[..i], cpus[i + 1..];
    assert cpus == a + ([cpus[i]] + z);
    CpuTimes(a, [cpus[i]] + z, pid); CpuTimes([cpus[i]], z, pid);
    CpuTimes(a, z, pid); CpuTimes(a + z, [c], pid);
    OneCpuTimes(c, pid); OneCpuTimes(cpus[i], pid);
    SocketsKept(cpus, i, c);
  }

  lemma CpuTimes(a: seq<Cpu>, b: seq<Cpu>, pid: int)
    ensures Times(CpuPids(a + b), pid) == Times(CpuPids(a), pid) + Times(CpuPids(b), pid)
    ensures IdleCount(a + b) == IdleCount(a) + IdleCount(b)
  {
    CpusAppend(a, b);
    TimesAppend(CpuPids(a), CpuPids(b), pid);
  }

  lemma OneCpuTimes(c: Cpu, pid: int)
    ensures Times(CpuPids([c]), pid) == if c.running && c.pid == pid then 1 else 0
    ensures IdleCount([c]) == if c.running then 0 else 1
  {
    OneCpu(c);
    OneTime(c.pid, pid);
  }

  lemma SocketsKept(cpus: seq<Cpu>, i: nat, c: Cpu)
    requires i < |cpus| && c.socket == cpus[i].socket && DistinctSockets(cpus)
    ensures DistinctSockets(RemoveAt(cpus, i) + [c])
  {
  }

  lemma {:induction false} CpuPidListed(cpus: seq<Cpu>, i: nat)
    requires i < |cpus| && cpus[i].running
    ensures cpus[i].pid in CpuPids(cpus)
  {
    if i > 0 {
      CpuPidListed(cpus[1..], i - 1);
    }
  }

  /** A CPU that executes always executes a process of colaEjecucion. */
  lemma ExecutingIsRunning(s: State, socket: int)
    requires CpusOk(s) && CpuAt(s.cpus, socket) >= 0 && s.cpus[CpuAt(s.cpus, socket)].running
    ensures OnCpu(s, socket)
  {
    var c := s.cpus[CpuAt(s.cpus, socket)];
    CpuPidListed(s.cpus, CpuAt(s.cpus, socket));
    TimesIn(CpuPids(s.cpus), c.pid);
    TimesIn(s.running, c.pid);
  }

  lemma {:induction false} SemPidsAppend(a: seq<Semaphore>, b: seq<Semaphore>)
    ensures SemPids(a + b) == SemPids(a) + SemPids(b)
  {
    if a == [] {
      assert a + b == b;
    } else {
      SemPidsAppend(a[1..], b);
      assert (a + b)[1..] == a[1..] + b;
      Regroup(a[0].pids, SemPids(a[1..]), SemPids(b));
    }
  }

  lemma SemsAppend(a: seq<Semaphore>, b: seq<Semaphore>, pid: int)
    ensures Times(SemPids(a + b), pid) == Times(SemPids(a), pid) + Times(SemPids(b), pid)
  {
    SemPidsAppend(a, b);
    TimesAppend(SemPids(a), SemPids(b), pid);
  }

  /** A semaphore taken out and put back changed at the end of the list. */
  lemma SemMoved(sems: seq<Semaphore>, i: nat, m: Semaphore, pid: int)
    requires i < |sems|
    ensures Times(SemPids(RemoveAt(sems, i) + [m]), pid) + Times(sems[i].pids, pid)
         == Times(SemPids(sems), pid) + Times(m.pids, pid)
  {
    hide Times, SemPids;
    var a, z := sems[..i], sems[i + 1..];
    assert sems == a + ([sems[i]] + z);
    SemsAppend(a, [sems[i]] + z, pid); SemsAppend([sems[i]], z, pid);
    SemsAppend(a, z, pid); SemsAppend(a + z, [m], pid);
    OneSem(m); OneSem(sems[i]);
  }

  lemma SemMovedBounded(sems: seq<Semaphore>, i: nat, m: Semaphore)
    requires i < |sems| && m.id == sems[i].id && SemsBounded(sems)
    requires |m.pids| <= Max0(-m.value)
    ensures SemsBounded(RemoveAt(sems, i) + [m])
  {
  }

  lemma OneSem(m: Semaphore)
    ensures SemPids([m]) == m.pids
  {
    assert [m][1..] == [];
    assert m.pids + [] == m.pids;
  }

  lemma {:induction false} EvensOdds(q: seq<int>, pid: int)
    ensures Times(Evens(q), pid) + Times(Odds(q), pid) == Times(q, pid)
    ensures q != [] ==> Evens(q) != []
    ensures |Evens(q)| + |Odds(q)| == |q|
  {
    if |q| > 1 {
      EvensOdds(q[2..], pid);
      assert q[1..][1..] == q[2..];
    }
  }

  lemma {:induction false} EvensAt(q: seq<int>, k: nat)
    ensures |Evens(q)| == (|q| + 1) / 2
    ensures 2 * k < |q| ==> Evens(q)[k] == q[2 * k]
    ensures 2 * k + 1 < |q| ==> Odds(q)[k] == q[2 * k + 1]
    decreases |q|
  {
    if |q| > 1 {
      EvensAt(q[2..], if k > 0 then k - 1 else 0);
    }
  }

  lemma {:induction false} EndAllIs(s: State, pids: seq<int>)
    ensures EndAll(s, pids)
         == s.(ended := s.ended + pids, degree := s.degree - |pids|, toAdmit := s.toAdmit + |pids|)
    decreases |pids|
  {
    if pids == [] {
      assert s.ended + [] == s.ended;
    } else {
      EndAllIs(End(s, pids[0]), pids[1..]);
      assert s.ended + [pids[0]] + pids[1..] == s.ended + pids;
    }
  }

  /** Removing a pid that occurs at most once, by the index-advancing loop. */
  lemma {:induction false} DropPid(q: seq<int>, pid: int, x: int)
    requires Times(q, pid) <= 1
    ensures Times(DropSkipping(q, (y: int) => y == pid), x) == if x == pid then 0 else Times(q, x)
    ensures |DropSkipping(q, (y: int) => y == pid)| <= |q|
  {
    if q == [] {
    } else if q[0] != pid {
      DropPid(q[1..], pid, x);
    } else if |q| > 1 {
      assert q[1..][1..] == q[2..];
      DropPid(q[2..], pid, x);
    }
  }

  lemma {:induction false} ForgetPids(sems: seq<Semaphore>, pid: int, x: int)
    requires Times(SemPids(sems), pid) <= 1
    ensures Times(SemPids(Forget(sems, pid)), x) == if x == pid then 0 else Times(SemPids(sems), x)
  {
    if sems != [] {
      var r := Forget(sems, pid);
      assert r[1..] == Forget(sems[1..], pid);
      TimesAppend(sems[0].pids, SemPids(sems[1..]), pid);
      TimesAppend(sems[0].pids, SemPids(sems[1..]), x);
      TimesAppend(r[0].pids, SemPids(r[1..]), x);
      DropPid(sems[0].pids, pid, x);
      ForgetPids(sems[1..], pid, x);
    }
  }

  lemma ForgetBounded(sems: seq<Semaphore>, pid: int)
    requires Times(SemPids(sems), pid) <= 1 && SemsBounded(sems)
    ensures SemsBounded(Forget(sems, pid))
  {
    forall i | 0 <= i < |sems|
      ensures |Forget(sems, pid)[i].pids| <= |sems[i].pids|
    {
      SemPidsHas(sems, i, pid);
      DropPid(sems[i].pids, pid, pid);
    }
  }

  // ----- the line of idle CPUs -----

  /** The sockets of the idle CPUs, in the order of listaCPU. */
  function IdleSockets(cpus: seq<Cpu>): seq<int> {
    if cpus == [] then [] else (if cpus[0].running then [] else [cpus[0].socket]) + IdleSockets(cpus[1..])
  }

  lemma {:induction false} IdleAppend(a: seq<Cpu>, b: seq<Cpu>)
    ensures IdleSockets(a + b) == IdleSockets(a) + IdleSockets(b)
  {
    if a == [] {
      assert a + b == b;
    } else {
      IdleAppend(a[1..], b);
      assert (a + b)[1..] == a[1..] + b;
      Regroup(if a[0].running then [] else [a[0].socket], IdleSockets(a[1..]), IdleSockets(b));
    }
  }

  function OneIdle(c: Cpu): seq<int> { if c.running then [] else [c.socket] }

  /** An entry taken out and put back at the end: its CPU, if idle, is idle last. */
  lemma IdleMoved(cpus: seq<Cpu>, i: nat, c: Cpu)
    requires i < |cpus|
    ensures IdleSockets(cpus) == IdleSockets(cpus[..i]) + OneIdle(cpus[i]) + IdleSockets(cpus[i + 1..])
    ensures IdleSockets(RemoveAt(cpus, i) + [c]) == IdleSockets(cpus[..i]) + IdleSockets(cpus[i + 1..]) + OneIdle(c)
  {
    hide IdleSockets, OneIdle, RemoveAt;
    Cut(cpus, i);
    ThreeParts(cpus[..i], [cpus[i]], cpus[i + 1..]);
    ThreeParts(cpus[..i], cpus[i + 1..], [c]);
    JustOne(c); JustOne(cpus[i]);
  }

  lemma Cut(cpus: seq<Cpu>, i: nat)
    requires i < |cpus|
    ensures cpus == cpus[..i] + [cpus[i]] + cpus[i + 1..]
    ensures RemoveAt(cpus, i) == cpus[..i] + cpus[i + 1..]
  {
  }

  lemma ThreeParts(a: seq<Cpu>, b: seq<Cpu>, c: seq<Cpu>)
    ensures IdleSockets(a + b + c) == IdleSockets(a) + IdleSockets(b) + IdleSockets(c)
  {
    IdleAppend(a + b, c);
    IdleAppend(a, b);
  }

  lemma JustOne(c: Cpu)
    ensures IdleSockets([c]) == OneIdle(c)
  {
    assert [c][1..] == [];
  }

  lemma {:induction false} NoneIdle(cpus: seq<Cpu>)
    requires forall j :: 0 <= j < |cpus| ==> cpus[j].running
    ensures IdleSockets(cpus) == []
  {
    if cpus != [] {
      NoneIdle(cpus[1..]);
    }
  }

  lemma FirstIdleIs(cpus: seq<Cpu>)
    ensures IdleCpu(cpus) >= 0 <==> IdleSockets(cpus) != []
    ensures IdleCpu(cpus) >= 0 ==>
              && IdleSockets(cpus)[0] == cpus[IdleCpu(cpus)].socket
              && IdleSockets(cpus[..IdleCpu(cpus)]) == []
  {
    var i := IdleCpu(cpus);
    if i >= 0 {
      BeforeIdle(cpus);
      NoneIdle(cpus[..i]);
      IdleMoved(cpus, i, cpus[i]);
    } else {
      NoneIdle(cpus);
    }
  }

  lemma {:induction false} BeforeIdle(cpus: seq<Cpu>)
    ensures forall j :: 0 <= j < IdleCpu(cpus) ==> cpus[j].running
  {
    if cpus != [] && cpus[0].running {
      BeforeIdle(cpus[1..]);
    }
  }

  lemma IdleLast(s: State, socket: int)
    requires OnCpu(s, socket)
    ensures IdleSockets(LeaveCpu(s, socket).cpus) == IdleSockets(s.cpus) + [socket]
  {
    hide IdleSockets, RemoveAt, Remove;
    var i := CpuAt(s.cpus, socket);
    IdleMoved(s.cpus, i, s.cpus[i].(running := false));
  }

  // ----- one place for each pid -----

  /** A pid is in one queue only. */
  lemma OneQueue(s: State, pid: int)
    requires Inv(s)
    ensures pid in s.newcomers ==> pid !in s.ready + s.running + s.blocked + s.ending + s.ended
    ensures pid in s.ready ==> pid !in s.running + s.blocked + s.ending + s.ended
    ensures pid in s.running ==> pid !in s.blocked + s.ending + s.ended
    ensures pid in s.blocked ==> pid !in s.ending + s.ended
    ensures pid in s.ending ==> pid !in s.ended
    ensures pid > s.lastPid ==> pid !in s.newcomers + s.ready + s.running + s.blocked + s.ending + s.ended
  {
    hide Times, CpusOk, SemsOk, TokensOk;
    assert Places(s, pid) <= 1;
    assert pid > s.lastPid ==> Places(s, pid) == 0;
    TimesIn(s.newcomers, pid); TimesIn(s.ready, pid); TimesIn(s.running, pid);
    TimesIn(s.blocked, pid); TimesIn(s.ending, pid); TimesIn(s.ended, pid);
  }

  // ----- each step -----

  /** Taking a process off its CPU: everything but its place is accounted for. */
  lemma LeaveCpuKeeps(s: State, socket: int)
    requires CpusOk(s) && OnCpu(s, socket)
    ensures var t, pid := LeaveCpu(s, socket), PidOn(s, socket);
      && CpusOk(t)
      && (forall p :: Times(s.running, p) == Times(t.running, p) + (if p == pid then 1 else 0))
      && |t.running| == |s.running| - 1
      && IdleCount(t.cpus) == IdleCount(s.cpus) + 1
      && IdleSockets(t.cpus) == IdleSockets(s.cpus) + [socket]
  {
    hide Times, CpuPids, IdleSockets;
    IdleLast(s, socket);
    var i, pid := CpuAt(s.cpus, socket), PidOn(s, socket);
    var t := LeaveCpu(s, socket);
    forall p
      ensures Times(s.running, p) == Times(t.running, p) + (if p == pid then 1 else 0)
      ensures Times(CpuPids(t.cpus), p) == Times(t.running, p)
    {
      CpuMoved(s.cpus, i, s.cpus[i].(running := false), p);
      RemoveTimes(s.running, pid, p);
    }
    CpuMoved(s.cpus, i, s.cpus[i].(running := false), 0);
  }

  lemma DispatchKeeps(s: State)
    requires Inv(s) && Enabled(s, EvDispatch)
    ensures IdleCpu(s.cpus) >= 0 && s.ready != []
    ensures Inv(Dispatch(s))
  {
    hide Times, CpuPids, SemPids;
    IdleExists(s.cpus);
    var i := IdleCpu(s.cpus);
    var t := Dispatch(s);
    var c := Cpu(s.cpus[i].socket, true, s.ready[0]);
    forall p
      ensures Places(t, p) == Places(s, p)
      ensures Times(CpuPids(t.cpus), p) == Times(t.running, p)
    {
      CpuMoved(s.cpus, i, c, p);
      HeadTimes(s.ready, p);
      PutTimes(s.running, s.ready[0], p);
    }
    CpuMoved(s.cpus, i, c, 0);
  }

  lemma HeadTimes(q: seq<int>, pid: int)
    requires q != []
    ensures Times(q, pid) == (if q[0] == pid then 1 else 0) + Times(q[1..], pid)
  {
  }

  lemma {:induction false} IdleExists(cpus: seq<Cpu>)
    ensures IdleCpu(cpus) >= 0 <==> IdleCount(cpus) > 0
  {
    if cpus != [] {
      IdleExists(cpus[1..]);
    }
  }

  lemma QuantumEndKeeps(s: State, socket: int)
    requires Inv(s) && OnCpu(s, socket)
    ensures Inv(QuantumEnd(s, socket))
  {
    hide Times, CpuPids, SemPids, LeaveCpu, OnCpu, IdleCount;
    LeaveCpuKeeps(s, socket);
    LeaveCpuIs(s, socket);
    forall p
      ensures Places(QuantumEnd(s, socket), p) == Places(s, p)
    {
      PutTimes(s.ready, PidOn(s, socket), p);
    }
  }

  lemma LeaveCpuIs(s: State, socket: int)
    requires OnCpu(s, socket)
    ensures var t := LeaveCpu(s, socket);
      t == s.(running := t.running, cpus := t.cpus, freeCpus := s.freeCpus + 1)
  {
  }

  lemma TakeOffKeeps(s: State, socket: int, why: Reason)
    requires Inv(s) && OnCpu(s, socket)
    ensures Inv(TakeOff(s, socket, why))
  {
    hide Times, CpuPids, SemPids, LeaveCpu, OnCpu, IdleCount;
    LeaveCpuKeeps(s, socket);
    LeaveCpuIs(s, socket);
    forall p
      ensures Places(TakeOff(s, socket, why), p) == Places(s, p)
    {
      PutTimes(s.ending, PidOn(s, socket), p);
    }
  }

  lemma ExpropriatedKeeps(s: State, socket: int)
    requires Inv(s) && Enabled(s, EvExpropriated(socket))
    ensures Inv(Expropriated(s, socket))
  {
    hide Times, CpuPids, SemPids, LeaveCpu, IdleCount, OnCpu;
    LeaveCpuKeeps(s, socket);
    LeaveCpuIs(s, socket);
    forall p
      ensures Places(Expropriated(s, socket), p) == Places(s, p)
    {
      PutTimes(s.ending, PidOn(s, socket), p);
    }
  }

  lemma WaitKeeps(s: State, socket: int, id: string)
    requires Inv(s) && OnCpu(s, socket) && SemAt(s.sems, id) >= 0
    ensures Inv(Wait(s, socket, id))
  {
    hide Times, CpuPids, SemPids, LeaveCpu, OnCpu, IdleCount;
    var i, pid := SemAt(s.sems, id), PidOn(s, socket);
    var m := s.sems[i].(value := s.sems[i].value - 1);
    var t := Wait(s, socket, id);
    LeaveCpuKeeps(s, socket);
    LeaveCpuIs(s, socket);
    var n := if m.value < 0 then m.(pids := m.pids + [pid]) else m;
    forall p
      ensures Places(t, p) == Places(s, p)
      ensures Times(SemPids(t.sems), p) == Times(t.blocked, p)
    {
      PutTimes(s.blocked, pid, p);
      PutTimes(m.pids, pid, p);
      SemMoved(s.sems, i, n, p);
    }
    SemMovedBounded(s.sems, i, n);
  }

  lemma SignalKeeps(s: State, id: string)
    requires Inv(s) && SemAt(s.sems, id) >= 0
    requires s.sems[SemAt(s.sems, id)].pids != [] ==> s.sems[SemAt(s.sems, id)].pids[0] in s.blocked
    ensures Inv(Signal(s, id))
  {
    hide Times, CpuPids, SemPids, IdleCount;
    var i := SemAt(s.sems, id);
    var m := s.sems[i].(value := s.sems[i].value + 1);
    var t := Signal(s, id);
    var n := if m.pids != [] then m.(pids := m.pids[1..]) else m;
    forall p
      ensures Places(t, p) == Places(s, p)
      ensures Times(SemPids(t.sems), p) == Times(t.blocked, p)
    {
      SemMoved(s.sems, i, n, p);
      if m.pids != [] {
        RemoveTimes(s.blocked, m.pids[0], p);
        HeadTimes(m.pids, p);
        PutTimes(s.ready, m.pids[0], p);
      }
    }
    SemMovedBounded(s.sems, i, n);
  }

  lemma EndSweepKeeps(s: State)
    requires Inv(s) && s.toEnd > 0
    ensures Inv(EndSweep(s))
  {
    hide Times, CpuPids, SemPids, IdleCount;
    var t := EndSweep(s);
    EndAllIs(s.(toEnd := s.toEnd - 1, ending := Odds(s.ending)), Evens(s.ending));
    forall p
      ensures Places(t, p) == Places(s, p)
    {
      EvensOdds(s.ending, p);
      TimesAppend(s.ended, Evens(s.ending), p);
    }
    EvensOdds(s.ending, 0);
  }

  lemma KillKeeps(s: State, pid: int)
    requires Inv(s) && Enabled(s, EvKill(pid))
    ensures pid in s.ready ==> s.toDispatch > 0
    ensures Inv(Kill(s, pid))
  {
    hide Times, CpuPids, SemPids, IdleCount;
    var t := Kill(s, pid);
    assert Places(s, pid) <= 1;
    forall p
      ensures Places(t, p) == Places(s, p)
    {
      PutTimes(s.ended, pid, p);
      if pid in s.ending {
        RemoveTimes(s.ending, pid, p);
      } else if pid in s.running {
      } else if pid in s.ready {
        RemoveTimes(s.ready, pid, p);
      } else {
        RemoveTimes(s.blocked, pid, p);
      }
    }
    if pid !in s.ending + s.running + s.ready {
      ForgetBounded(s.sems, pid);
      forall p
        ensures Times(SemPids(t.sems), p) == Times(t.blocked, p)
      {
        RemoveTimes(s.blocked, pid, p);
        ForgetPids(s.sems, pid, p);
      }
    }
  }

  lemma AdmitKeeps(s: State)
    requires Inv(s) && s.toAdmit > 0
    ensures Inv(Admit(s))
  {
    hide Times, CpuPids, SemPids, IdleCount;
    forall p
      ensures Places(Admit(s), p) == Places(s, p)
    {
      if s.newcomers != [] {
        HeadTimes(s.newcomers, p);
        PutTimes(s.ready, s.newcomers[0], p);
      }
    }
  }

  lemma NewProgramKeeps(s: State)
    requires Inv(s)
    ensures Inv(NewProgram(s))
  {
    hide Times, CpuPids, SemPids, IdleCount;
    forall p
      ensures Places(NewProgram(s), p) == Places(s, p) + (if p == s.lastPid + 1 then 1 else 0)
    {
      PutTimes(s.newcomers, s.lastPid + 1, p);
    }
  }

  lemma NewCpuKeeps(s: State, socket: int, pid: int)
    requires Inv(s) && CpuAt(s.cpus, socket) < 0
    ensures Inv(NewCpu(s, socket, pid))
  {
    hide Times, SemPids;
    CpusAppend(s.cpus, [Cpu(socket, false, pid)]);
    OneCpu(Cpu(socket, false, pid));
    assert CpuPids(s.cpus) + [] == CpuPids(s.cpus);
    forall p
      ensures Places(NewCpu(s, socket, pid), p) == Places(s, p)
    {
    }
  }

  lemma TakeCpuKeeps(s: State)
    requires Inv(s) && Enabled(s, EvTakeCpu)
    ensures Inv(TakeCpu(s))
  {
    hide Times, CpuPids, SemPids, IdleCount;
    forall p
      ensures Places(TakeCpu(s), p) == Places(s, p)
    {
    }
  }

  /** Every step keeps the queues a partition, CPUs and queues in step, and the threads'
      semaphores equal to what they count. */
  lemma StepInv(s: State, e: Event)
    requires Inv(s) && Enabled(s, e)
    ensures Inv(Step(s, e))
  {
    hide Inv, OnCpu, SemAt, CpuAt;
    match e
    case EvNewProgram => NewProgramKeeps(s);
    case EvAdmit => AdmitKeeps(s);
    case EvEndSweep => EndSweepKeeps(s);
    case EvNewCpu(socket, garbage) => NewCpuKeeps(s, socket, garbage);
    case EvTakeCpu => TakeCpuKeeps(s);
    case EvDispatch => DispatchKeeps(s);
    case EvQuantumEnd(socket) => QuantumEndKeeps(s, socket);
    case EvTakeOff(socket, why) => TakeOffKeeps(s, socket, why);
    case EvExpropriated(socket) => ExpropriatedKeeps(s, socket);
    case EvWait(socket, id) => WaitKeeps(s, socket, id);
    case EvSignal(_, id) =>
      EnabledMeans(s, e);
      SignalKeeps(s, id);
    case EvKill(pid) => KillKeeps(s, pid);
  }
}
