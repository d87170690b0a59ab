/** Which step touches which queue, which CPU and which token, and the order in which idle
    CPUs are used. */
module SchedulerLines {
  import opened Lists
  import opened Scheduler
  import opened SchedulerTheorems
  import opened SchedulerRuns

  // ----- idle CPUs -----

  /** The process on this CPU leaves it. */
  predicate Vacates(s: State, e: Event, socket: int)
    requires Enabled(s, e)
  {
    match e
    case EvQuantumEnd(k) => k == socket
    case EvTakeOff(k, _) => k == socket
    case EvExpropriated(k) => k == socket
    case EvWait(k, id) => k == socket && s.sems[SemAt(s.sems, id)].value <= 0
    case _ => false
  }

  /** Idle CPUs form a line: a CPU that connects or is vacated goes to its end, a dispatch
      takes its first, and nothing else moves it. */
  lemma IdleStep(s: State, e: Event)
    requires Inv(s) && Enabled(s, e)
    ensures var q, r := IdleSockets(s.cpus), IdleSockets(Step(s, e).cpus);
      match e
      case EvNewCpu(k, _) => r == q + [k]
      case EvDispatch => q != [] && r == q[1..]
      case EvQuantumEnd(k) => r == q + [k]
      case EvTakeOff(k, _) => r == q + [k]
      case EvExpropriated(k) => r == q + [k]
      case EvWait(k, id) => r == if s.sems[SemAt(s.sems, id)].value <= 0 then q + [k] else q
      case _ => r == q
  {
    hide Times, CpuPids, SemPids, IdleCount, Partition, IdleSockets, RemoveAt, Remove;
    match e {
      case EvNewCpu(k, garbage) =>
        IdleAppend(s.cpus, [Cpu(k, false, garbage)]);
        JustOne(Cpu(k, false, garbage));
      case EvDispatch =>
        IdleExists(s.cpus);
        FirstIdleIs(s.cpus);
        var i := IdleCpu(s.cpus);
        IdleMoved(s.cpus, i, Cpu(s.cpus[i].socket, true, s.ready[0]));
        assert IdleSockets(s.cpus)[1..] == IdleSockets(s.cpus[i + 1..]);
      case EvQuantumEnd(k) => IdleLast(s, k);
      case EvTakeOff(k, why) => IdleLast(s, k);
      case EvExpropriated(k) => IdleLast(s, k);
      case EvWait(k, id) => IdleLast(s, k);
      case EvEndSweep =>
        EndAllIs(s.(toEnd := s.toEnd - 1, ending := Odds(s.ending)), Evens(s.ending));
      case _ =>
    }
  }

  function Dispatches(es: seq<Event>): nat {
    if es == [] then 0 else (if es[0].EvDispatch? then 1 else 0) + Dispatches(es[1..])
  }

  /** The n-th step of a run dispatches to this CPU. */
  ghost predicate DispatchedTo(s: State, es: seq<Event>, n: nat, socket: int)
    requires Inv(s) && Legal(s, es) && n < |es|
  {
    RunSplits(s, es, n);
    && es[n].EvDispatch?
    && IdleSockets(After(s, es[..n]).cpus) != [] && IdleSockets(After(s, es[..n]).cpus)[0] == socket
  }

  /** The CPU at position k of the line gets a process at exactly the dispatch number k + 1
      of any run, whatever connects and is vacated meanwhile. */
  lemma {:induction false} IdleInTurn(s: State, es: seq<Event>, k: nat) returns (n: nat)
    requires Inv(s) && Legal(s, es) && k < |IdleSockets(s.cpus)| && Dispatches(es) > k
    ensures n < |es| && DispatchedTo(s, es, n, IdleSockets(s.cpus)[k])
    ensures Dispatches(es[..n]) == k
    decreases |es|
  {
    hide Inv, Step, IdleSockets;
    var e := es[0];
    if e.EvDispatch? && k == 0 {
      n := 0;
    } else {
      IdleStep(s, e);
      StepInv(s, e);
      var m := IdleInTurn(Step(s, e), es[1..], if e.EvDispatch? then k - 1 else k);
      n := m + 1;
      assert es[..n][1..] == es[1..][..m];
    }
  }

  // ----- one CPU -----

  /** What a step makes of one CPU. */
  function CpuAfter(s: State, e: Event, c: Cpu): Cpu
    requires Inv(s) && Enabled(s, e)
  {
    if e.EvDispatch? && s.ready != [] && [c.socket] <= IdleSockets(s.cpus) then Cpu(c.socket, true, s.ready[0])
    else if Vacates(s, e, c.socket) then c.(running := false)
    else c
  }

  lemma CpuFound(cpus: seq<Cpu>, i: nat)
    requires i < |cpus| && DistinctSockets(cpus)
    ensures CpuAt(cpus, cpus[i].socket) == i
  {
  }

  lemma CpuNotFound(cpus: seq<Cpu>, socket: int)
    requires forall j :: 0 <= j < |cpus| ==> cpus[j].socket != socket
    ensures CpuAt(cpus, socket) < 0
  {
  }

  /** Taking one CPU out and putting it back changed at the end leaves every other one. */
  lemma OneCpuMoved(cpus: seq<Cpu>, i: nat, c: Cpu, socket: int)
    requires i < |cpus| && c.socket == cpus[i].socket && DistinctSockets(cpus)
    ensures var r := RemoveAt(cpus, i) + [c];
      if socket == c.socket then CpuAt(r, socket) >= 0 && r[CpuAt(r, socket)] == c
      else (CpuAt(r, socket) >= 0 <==> CpuAt(cpus, socket) >= 0)
           && (CpuAt(r, socket) >= 0 ==> r[CpuAt(r, socket)] == cpus[CpuAt(cpus, socket)])
  {
    hide CpuAt;
    var r := RemoveAt(cpus, i) + [c];
    SocketsKept(cpus, i, c);
    if socket == c.socket {
      CpuFound(r, |r| - 1);
    } else if CpuAt(cpus, socket) >= 0 {
      var j := CpuAt(cpus, socket);
      CpuFound(r, if j < i then j else j - 1);
    } else {
      CpuNotFound(r, socket);
    }
  }

  /** CPUs rotate through the list, but each reacts only to the dispatch that takes it and
      to its own requests. */
  lemma CpuStep(s: State, e: Event, socket: int)
    requires Inv(s) && Enabled(s, e)
    ensures var i, r := CpuAt(s.cpus, socket), Step(s, e).cpus;
      && (CpuAt(r, socket) >= 0 <==> i >= 0 || (e.EvNewCpu? && e.socket == socket))
      && (i >= 0 ==> r[CpuAt(r, socket)] == CpuAfter(s, e, s.cpus[i]))
      && (i < 0 <= CpuAt(r, socket) ==> e.EvNewCpu? && r[CpuAt(r, socket)] == Cpu(socket, false, e.garbage))
  {
    hide Times, CpuPids, SemPids, IdleCount, Partition, IdleSockets, RemoveAt, Remove, CpuAt, CpuAfter, Step;
    if e.EvDispatch? {
      DispatchCpu(s, socket);
    } else if e.EvNewCpu? {
      NewCpuStep(s, e, socket);
    } else if e.EvQuantumEnd? || e.EvTakeOff? || e.EvExpropriated? || e.EvWait? {
      VacatedCpu(s, e, socket);
    } else {
      SameCpus(s, e);
    }
  }

  lemma DispatchCpu(s: State, socket: int)
    requires Inv(s) && Enabled(s, EvDispatch)
    ensures var e := EvDispatch; var i, r := CpuAt(s.cpus, socket), Step(s, e).cpus;
      && (CpuAt(r, socket) >= 0 <==> i >= 0)
      && (i >= 0 ==> r[CpuAt(r, socket)] == CpuAfter(s, e, s.cpus[i]))
  {
    hide Times, CpuPids, SemPids, IdleCount, Partition, IdleSockets, RemoveAt, CpuAt;
    IdleExists(s.cpus);
    FirstIdleIs(s.cpus);
    var k := IdleCpu(s.cpus);
    OneCpuMoved(s.cpus, k, Cpu(s.cpus[k].socket, true, s.ready[0]), socket);
  }

  lemma NewCpuStep(s: State, e: Event, socket: int)
    requires Inv(s) && Enabled(s, e) && e.EvNewCpu?
    ensures var i, r := CpuAt(s.cpus, socket), Step(s, e).cpus;
      && (CpuAt(r, socket) >= 0 <==> i >= 0 || e.socket == socket)
      && (i >= 0 ==> r[CpuAt(r, socket)] == CpuAfter(s, e, s.cpus[i]))
      && (i < 0 <= CpuAt(r, socket) ==> e.EvNewCpu? && r[CpuAt(r, socket)] == Cpu(socket, false, e.garbage))
  {
    hide Times, CpuPids, SemPids, IdleCount, Partition, IdleSockets, CpuAt;
    var r := Step(s, e).cpus;
    assert r == s.cpus + [Cpu(e.socket, false, e.garbage)];
    if CpuAt(s.cpus, socket) >= 0 {
      CpuFound(r, CpuAt(s.cpus, socket));
    } else if e.socket == socket {
      CpuFound(r, |r| - 1);
    } else {
      CpuNotFound(r, socket);
    }
  }

  lemma VacatedCpu(s: State, e: Event, socket: int)
    requires Inv(s) && Enabled(s, e)
    requires e.EvQuantumEnd? || e.EvTakeOff? || e.EvExpropriated? || e.EvWait?
    ensures var i, r := CpuAt(s.cpus, socket), Step(s, e).cpus;
      && (CpuAt(r, socket) >= 0 <==> i >= 0)
      && (i >= 0 ==> r[CpuAt(r, socket)] == CpuAfter(s, e, s.cpus[i]))
  {
    hide Times, CpuPids, SemPids, IdleCount, Partition, IdleSockets, RemoveAt, Remove, CpuAt, SemAt;
    var k := CpuAt(s.cpus, e.socket);
    OneCpuMoved(s.cpus, k, s.cpus[k].(running := false), socket);
  }

  lemma SameCpus(s: State, e: Event)
    requires Inv(s) && Enabled(s, e)
    requires !e.EvDispatch? && !e.EvNewCpu? && !e.EvQuantumEnd? && !e.EvTakeOff? && !e.EvExpropriated? && !e.EvWait?
    ensures Step(s, e).cpus == s.cpus && forall c :: CpuAfter(s, e, c) == c
  {
    hide Inv;
    if e.EvEndSweep? {
      EndAllIs(s.(toEnd := s.toEnd - 1, ending := Odds(s.ending)), Evens(s.ending));
    }
  }

  // ----- queues -----

  /** The process that a signal wakes, if any. */
  function Woken(s: State, e: Event): (q: seq<int>)
    requires Enabled(s, e)
    ensures |q| <= 1
  {
    if e.EvSignal? && s.sems[SemAt(s.sems, e.id)].pids != [] then [s.sems[SemAt(s.sems, e.id)].pids[0]] else []
  }

  /** The process that a step takes off its CPU, if any. */
  function Vacated(s: State, e: Event): (q: seq<int>)
    requires Enabled(s, e)
    ensures |q| <= 1
  {
    match e
    case EvQuantumEnd(k) => [PidOn(s, k)]
    case EvTakeOff(k, _) => [PidOn(s, k)]
    case EvExpropriated(k) => [PidOn(s, k)]
    case EvWait(k, id) => if s.sems[SemAt(s.sems, id)].value <= 0 then [PidOn(s, k)] else []
    case _ => []
  }

  /** The process that a step admits, if any. */
  function Entering(s: State, e: Event): (q: seq<int>)
    ensures |q| <= 1
    ensures |q| <= |s.newcomers|
  {
    if e.EvAdmit? && s.degree < s.limit && s.newcomers != [] then [s.newcomers[0]] else []
  }

  predicate Kills(e: Event, q: seq<int>) { e.EvKill? && e.pid in q }

  /** Who enters and leaves colaNuevos, colaListos and colaBloqueados, and where: who arrives,
      becomes ready or blocks goes to the end, who is admitted, dispatched or woken was the
      first of its line, and a kill takes its process from wherever it is. */
  lemma WaitingSteps(s: State, e: Event)
    requires Inv(s) && Enabled(s, e)
    ensures var t := Step(s, e).newcomers;
      if e.EvNewProgram? then t == s.newcomers + [s.lastPid + 1] else t == s.newcomers[|Entering(s, e)|..]
    ensures var t := Step(s, e).ready;
      if e.EvDispatch? then s.ready != [] && t == s.ready[1..]
      else if Kills(e, s.ready) then t == Remove(s.ready, e.pid)
      else t == s.ready + Entering(s, e) + (if e.EvQuantumEnd? then Vacated(s, e) else Woken(s, e))
    ensures var t := Step(s, e).blocked;
      if Kills(e, s.blocked) then t == Remove(s.blocked, e.pid)
      else if Woken(s, e) != [] then Woken(s, e)[0] in s.blocked && t == Remove(s.blocked, Woken(s, e)[0])
      else t == s.blocked + (if e.EvWait? then Vacated(s, e) else [])
  {
    hide Inv, Step, Vacated, Woken, Entering;
    NewcomerSteps(s, e);
    ReadySteps(s, e);
    BlockedSteps(s, e);
  }

  lemma NewcomerSteps(s: State, e: Event)
    requires Inv(s) && Enabled(s, e)
    ensures var t := Step(s, e).newcomers;
      if e.EvNewProgram? then t == s.newcomers + [s.lastPid + 1] else t == s.newcomers[|Entering(s, e)|..]
  {
    hide Times, CpuPids, SemPids, IdleCount, Partition, CpusOk, SemsOk, LeaveCpu, Remove, RemoveAt;
    EnabledMeans(s, e);
    if e.EvQuantumEnd? || e.EvTakeOff? || e.EvExpropriated? || e.EvWait? {
      LeaveCpuIs(s, e.socket);
    } else if e.EvEndSweep? {
      EndAllIs(s.(toEnd := s.toEnd - 1, ending := Odds(s.ending)), Evens(s.ending));
    } else if e.EvDispatch? {
      DispatchKeeps(s);
    } else if e.EvKill? {
      OneQueue(s, e.pid);
    }
    assert s.newcomers[0..] == s.newcomers;
  }

  lemma ReadySteps(s: State, e: Event)
    requires Inv(s) && Enabled(s, e)
    ensures var t := Step(s, e).ready;
      if e.EvDispatch? then s.ready != [] && t == s.ready[1..]
      else if Kills(e, s.ready) then t == Remove(s.ready, e.pid)
      else t == s.ready + Entering(s, e) + (if e.EvQuantumEnd? then Vacated(s, e) else Woken(s, e))
  {
    hide Times, CpuPids, SemPids, IdleCount, Partition, CpusOk, SemsOk, LeaveCpu, Remove, RemoveAt;
    EnabledMeans(s, e);
    if e.EvQuantumEnd? || e.EvTakeOff? || e.EvExpropriated? || e.EvWait? {
      LeaveCpuIs(s, e.socket);
    } else if e.EvEndSweep? {
      EndAllIs(s.(toEnd := s.toEnd - 1, ending := Odds(s.ending)), Evens(s.ending));
    } else if e.EvDispatch? {
      DispatchKeeps(s);
    } else if e.EvKill? {
      OneQueue(s, e.pid);
    }
  }

  lemma BlockedSteps(s: State, e: Event)
    requires Inv(s) && Enabled(s, e)
    ensures var t := Step(s, e).blocked;
      if Kills(e, s.blocked) then t == Remove(s.blocked, e.pid)
      else if Woken(s, e) != [] then Woken(s, e)[0] in s.blocked && t == Remove(s.blocked, Woken(s, e)[0])
      else t == s.blocked + (if e.EvWait? then Vacated(s, e) else [])
  {
    hide Times, CpuPids, SemPids, IdleCount, Partition, CpusOk, SemsOk, LeaveCpu, Remove, RemoveAt;
    EnabledMeans(s, e);
    if e.EvQuantumEnd? || e.EvTakeOff? || e.EvExpropriated? || e.EvWait? {
      LeaveCpuIs(s, e.socket);
    } else if e.EvEndSweep? {
      EndAllIs(s.(toEnd := s.toEnd - 1, ending := Odds(s.ending)), Evens(s.ending));
    } else if e.EvDispatch? {
      DispatchKeeps(s);
    } else if e.EvKill? {
      OneQueue(s, e.pid);
    }
  }

  /** The same of colaEjecucion and of the words left for processes. */
  lemma RunningSteps(s: State, e: Event)
    requires Inv(s) && Enabled(s, e)
    ensures var t := Step(s, e).running;
      if e.EvDispatch? then s.ready != [] && t == s.running + [s.ready[0]]
      else if Vacated(s, e) != [] then t == Remove(s.running, Vacated(s, e)[0])
      else t == s.running
    ensures var t := Step(s, e).interrupted;
      if Kills(e, s.running) then t == s.interrupted + [e.pid]
      else if e.EvExpropriated? then t == Remove(s.interrupted, PidOn(s, e.socket))
      else t == s.interrupted
  {
    hide Times, CpuPids, SemPids, IdleCount, Partition, CpusOk, SemsOk, Remove, RemoveAt, SetIdle;
    EnabledMeans(s, e);
    if e.EvEndSweep? {
      EndAllIs(s.(toEnd := s.toEnd - 1, ending := Odds(s.ending)), Evens(s.ending));
    } else if e.EvDispatch? {
      DispatchKeeps(s);
    } else if e.EvKill? {
      OneQueue(s, e.pid);
    }
  }

  /** The same of listaEspera and colaTerminados. */
  lemma EndingSteps(s: State, e: Event)
    requires Inv(s) && Enabled(s, e)
    ensures var t := Step(s, e).ending;
      if e.EvEndSweep? then t == Odds(s.ending)
      else if Kills(e, s.ending) then t == Remove(s.ending, e.pid)
      else t == s.ending + (if e.EvTakeOff? || e.EvExpropriated? then Vacated(s, e) else [])
    ensures var t := Step(s, e).ended;
      if e.EvEndSweep? then t == s.ended + Evens(s.ending)
      else t == s.ended + (if e.EvKill? && e.pid !in s.running then [e.pid] else [])
  {
    hide Times, CpuPids, SemPids, IdleCount, Partition, CpusOk, SemsOk, LeaveCpu, Remove, RemoveAt;
    EnabledMeans(s, e);
    if e.EvQuantumEnd? || e.EvTakeOff? || e.EvExpropriated? || e.EvWait? {
      LeaveCpuIs(s, e.socket);
    } else if e.EvEndSweep? {
      EndAllIs(s.(toEnd := s.toEnd - 1, ending := Odds(s.ending)), Evens(s.ending));
    } else if e.EvDispatch? {
      DispatchKeeps(s);
    } else if e.EvKill? {
      OneQueue(s, e.pid);
    }
  }

  // ----- tokens -----

  /** Tokens that a step posts to sem_administrarFinProceso. */
  function EndPosts(e: Event): nat {
    match e
    case EvTakeOff(_, why) => if why.StackOverflow? then 2 else 1
    case EvExpropriated(_) => 1
    case _ => 0
  }

  /** What a step posts and takes: every arrival and every end of a process posts one token of
      admission, every process handed over to be ended posts one of the other kind, two after
      a stack overflow; a turn of a thread takes one. The degree counts admissions less ends;
      the configured one and the pids given out change with nothing else. */
  lemma TokenSteps(s: State, e: Event)
    requires Inv(s) && Enabled(s, e)
    ensures var t := Step(s, e); var ends := |t.ended| - |s.ended|;
      && t.toAdmit == s.toAdmit + (if e.EvNewProgram? then 1 else 0) + ends - (if e.EvAdmit? then 1 else 0)
      && t.toEnd == s.toEnd + EndPosts(e) - (if e.EvEndSweep? then 1 else 0)
      && t.freeCpus == s.freeCpus + (if e.EvNewCpu? then 1 else |Vacated(s, e)|) - (if e.EvTakeCpu? then 1 else 0)
      && (t.holding <==> e.EvTakeCpu? || (s.holding && !e.EvDispatch?))
      && t.degree == s.degree + |Entering(s, e)| - ends
      && t.limit == s.limit && t.lastPid == s.lastPid + (if e.EvNewProgram? then 1 else 0)
  {
    hide Inv, Step, Vacated, Entering;
    AdmitTokens(s, e);
    EndTokens(s, e);
  }

  lemma AdmitTokens(s: State, e: Event)
    requires Inv(s) && Enabled(s, e)
    ensures var t := Step(s, e); var ends := |t.ended| - |s.ended|;
      && t.toAdmit == s.toAdmit + (if e.EvNewProgram? then 1 else 0) + ends - (if e.EvAdmit? then 1 else 0)
      && t.degree == s.degree + |Entering(s, e)| - ends
      && t.limit == s.limit && t.lastPid == s.lastPid + (if e.EvNewProgram? then 1 else 0)
  {
    hide Times, CpuPids, SemPids, IdleCount, Partition, CpusOk, SemsOk, LeaveCpu, Remove, RemoveAt, OnCpu, SemAt;
    EnabledMeans(s, e);
    if e.EvQuantumEnd? || e.EvTakeOff? || e.EvExpropriated? || e.EvWait? {
      LeaveCpuIs(s, e.socket);
    } else if e.EvEndSweep? {
      EndAllIs(s.(toEnd := s.toEnd - 1, ending := Odds(s.ending)), Evens(s.ending));
    } else if e.EvDispatch? {
      DispatchKeeps(s);
    }
  }

  lemma EndTokens(s: State, e: Event)
    requires Inv(s) && Enabled(s, e)
    ensures var t := Step(s, e);
      && t.toEnd == s.toEnd + EndPosts(e) - (if e.EvEndSweep? then 1 else 0)
      && t.freeCpus == s.freeCpus + (if e.EvNewCpu? then 1 else |Vacated(s, e)|) - (if e.EvTakeCpu? then 1 else 0)
      && (t.holding <==> e.EvTakeCpu? || (s.holding && !e.EvDispatch?))
  {
    hide Times, CpuPids, SemPids, IdleCount, Partition, CpusOk, SemsOk, LeaveCpu, Remove, RemoveAt, OnCpu, SemAt;
    EnabledMeans(s, e);
    if e.EvQuantumEnd? || e.EvTakeOff? || e.EvExpropriated? || e.EvWait? {
      LeaveCpuIs(s, e.socket);
    } else if e.EvEndSweep? {
      EndAllIs(s.(toEnd := s.toEnd - 1, ending := Odds(s.ending)), Evens(s.ending));
    } else if e.EvDispatch? {
      DispatchKeeps(s);
    }
  }

  function Arrivals(es: seq<Event>): nat {
    if es == [] then 0 else (if es[0].EvNewProgram? then 1 else 0) + Arrivals(es[1..])
  }

  function AdmitTurns(es: seq<Event>): nat {
    if es == [] then 0 else (if es[0].EvAdmit? then 1 else 0) + AdmitTurns(es[1..])
  }

  function EndTurns(es: seq<Event>): nat {
    if es == [] then 0 else (if es[0].EvEndSweep? then 1 else 0) + EndTurns(es[1..])
  }

  function AllEndPosts(es: seq<Event>): nat {
    if es == [] then 0 else EndPosts(es[0]) + AllEndPosts(es[1..])
  }

  /** Over every run no token is lost and none comes from nowhere. */
  lemma {:induction false} TokensOverRuns(s: State, es: seq<Event>)
    requires Inv(s) && Legal(s, es)
    ensures var t := After(s, es);
      && t.toAdmit + AdmitTurns(es) == s.toAdmit + Arrivals(es) + (|t.ended| - |s.ended|)
      && t.toEnd + EndTurns(es) == s.toEnd + AllEndPosts(es)
      && t.lastPid == s.lastPid + Arrivals(es) && t.limit == s.limit
    decreases |es|
  {
    hide Inv, Step, Vacated, Entering, EndPosts;
    if es != [] {
      TokenSteps(s, es[0]);
      StepInv(s, es[0]);
      TokensOverRuns(Step(s, es[0]), es[1..]);
    }
  }

  // ----- the list of semaphores -----

  function Names(sems: seq<Semaphore>): (r: seq<string>)
    ensures |r| == |sems| && forall i :: 0 <= i < |sems| ==> r[i] == sems[i].id
  {
    seq(|sems|, i requires 0 <= i < |sems| => sems[i].id)
  }

  /** A wait or a signal moves its semaphore to the end of colaSemaforos, and the others keep
      their order; nothing else moves any. */
  lemma SemOrder(s: State, e: Event)
    requires Inv(s) && Enabled(s, e)
    ensures var q, r := Names(s.sems), Names(Step(s, e).sems);
      if e.EvWait? || e.EvSignal? then r == RemoveAt(q, SemAt(s.sems, e.id)) + [e.id] else r == q
  {
    hide Inv, Step, SemAt, RemoveAt, Names;
    if e.EvWait? {
      WaitOrder(s, e);
    } else if e.EvSignal? {
      SignalOrder(s, e);
    } else if KillsBlocked(s, e) {
      ForgetOrder(s, e);
    } else {
      OtherSteps(s, e);
    }
  }

  lemma Rotated(sems: seq<Semaphore>, i: nat, m: Semaphore)
    requires i < |sems|
    ensures Names(RemoveAt(sems, i) + [m]) == RemoveAt(Names(sems), i) + [m.id]
  {
  }

  lemma WaitOrder(s: State, e: Event)
    requires Inv(s) && Enabled(s, e) && e.EvWait?
    ensures Names(Step(s, e).sems) == RemoveAt(Names(s.sems), SemAt(s.sems, e.id)) + [e.id]
  {
    hide Inv, LeaveCpu, OnCpu, SemAt, Names, RemoveAt;
    LeaveCpuIs(s, e.socket);
    var t := Step(s, e).sems;
    Rotated(s.sems, SemAt(s.sems, e.id), t[|t| - 1]);
  }

  lemma SignalOrder(s: State, e: Event)
    requires Inv(s) && Enabled(s, e) && e.EvSignal?
    ensures Names(Step(s, e).sems) == RemoveAt(Names(s.sems), SemAt(s.sems, e.id)) + [e.id]
  {
    hide Inv, OnCpu, SemAt, Names, RemoveAt, Remove;
    EnabledMeans(s, e);
    var t := Step(s, e).sems;
    Rotated(s.sems, SemAt(s.sems, e.id), t[|t| - 1]);
  }

  lemma ForgetOrder(s: State, e: Event)
    requires Inv(s) && Enabled(s, e) && KillsBlocked(s, e)
    ensures Names(Step(s, e).sems) == Names(s.sems)
  {
    hide Inv, Remove;
  }
}
