/** The scheduler as the kernel runs it: queues and counters changed in place by request
    handlers and threads, each refining one step of the state machine. */
module SchedulerKernel {
  import opened Lists
  import opened Scheduler
  import opened SchedulerTheorems
  import opened SchedulerRuns
  import opened SchedulerLines

  // ----- searches -----

  lemma {:induction false} FirstOf(q: seq<int>, pid: int, i: nat)
    requires i <= |q| && pid !in q[..i]
    ensures i == |q| ==> IndexOf(q, pid) == -1
    ensures i < |q| && q[i] == pid ==> IndexOf(q, pid) == i
  {
    if i > 0 {
      assert q[0] in q[..i];
      assert q[1..][..i - 1] == q[..i][1..];
      FirstOf(q[1..], pid, i - 1);
    }
  }

  lemma {:induction false} FirstCpu(cpus: seq<Cpu>, socket: int, i: nat)
    requires i <= |cpus| && forall j :: 0 <= j < i ==> cpus[j].socket != socket
    ensures i == |cpus| ==> CpuAt(cpus, socket) == -1
    ensures i < |cpus| && cpus[i].socket == socket ==> CpuAt(cpus, socket) == i
  {
    if i > 0 {
      FirstCpu(cpus[1..], socket, i - 1);
    }
  }

  lemma {:induction false} FirstIdle(cpus: seq<Cpu>, i: nat)
    requires i <= |cpus| && forall j :: 0 <= j < i ==> cpus[j].running
    ensures i == |cpus| ==> IdleCpu(cpus) == -1
    ensures i < |cpus| && !cpus[i].running ==> IdleCpu(cpus) == i
  {
    if i > 0 {
      FirstIdle(cpus[1..], i - 1);
    }
  }

  lemma {:induction false} FirstSem(sems: seq<Semaphore>, id: string, i: nat)
    requires i <= |sems| && forall j :: 0 <= j < i ==> sems[j].id != id
    ensures i == |sems| ==> SemAt(sems, id) == -1
    ensures i < |sems| && sems[i].id == id ==> SemAt(sems, id) == i
  {
    if i > 0 {
      FirstSem(sems[1..], id, i - 1);
    }
  }

  /** list_remove_by_condition on a pid; the rest keeps its order. */
  method TakePid(q: seq<int>, pid: int) returns (found: bool, rest: seq<int>)
    ensures found <==> pid in q
    ensures rest == if pid in q then Remove(q, pid) else q
  {
    var i := 0;
    while i < |q| && q[i] != pid
      invariant 0 <= i <= |q| && pid !in q[..i]
    {
      i := i + 1;
    }
    FirstOf(q, pid, i);
    found := i < |q|;
    rest := if found then RemoveAt(q, i) else q;
  }

  method FindCpu(cpus: seq<Cpu>, socket: int) returns (i: int)
    ensures i == CpuAt(cpus, socket)
  {
    i := 0;
    while i < |cpus| && cpus[i].socket != socket
      invariant 0 <= i <= |cpus| && forall j :: 0 <= j < i ==> cpus[j].socket != socket
    {
      i := i + 1;
    }
    FirstCpu(cpus, socket, i);
    if i == |cpus| {
      i := -1;
    }
  }

  method FindIdle(cpus: seq<Cpu>) returns (i: int)
    ensures i == IdleCpu(cpus)
  {
    i := 0;
    while i < |cpus| && cpus[i].running
      invariant 0 <= i <= |cpus| && forall j :: 0 <= j < i ==> cpus[j].running
    {
      i := i + 1;
    }
    FirstIdle(cpus, i);
    if i == |cpus| {
      i := -1;
    }
  }

  /** buscarSemaforo. */
  method FindSem(sems: seq<Semaphore>, id: string) returns (i: int)
    ensures i == SemAt(sems, id)
  {
    i := 0;
    while i < |sems| && sems[i].id != id
      invariant 0 <= i <= |sems| && forall j :: 0 <= j < i ==> sems[j].id != id
    {
      i := i + 1;
    }
    FirstSem(sems, id, i);
    if i == |sems| {
      i := -1;
    }
  }

  // ----- what the steps mean for one process and one CPU -----

  /** A CPU is idle, and its entry says so. */
  ghost predicate Idle(cpus: seq<Cpu>, socket: int) {
    CpuAt(cpus, socket) >= 0 && !cpus[CpuAt(cpus, socket)].running
  }

  /** A CPU is executing this process. */
  ghost predicate Executes(cpus: seq<Cpu>, socket: int, pid: int) {
    && CpuAt(cpus, socket) >= 0
    && cpus[CpuAt(cpus, socket)].running && cpus[CpuAt(cpus, socket)].pid == pid
  }

  lemma LeftIdle(cpus: seq<Cpu>, socket: int)
    requires DistinctSockets(cpus) && CpuAt(cpus, socket) >= 0
    ensures Idle(SetIdle(cpus, socket), socket)
  {
    var i := CpuAt(cpus, socket);
    MovedCpu(cpus, i, cpus[i].(running := false));
  }

  lemma MovedCpu(cpus: seq<Cpu>, i: nat, c: Cpu)
    requires i < |cpus| && DistinctSockets(cpus) && c.socket == cpus[i].socket
    ensures var r := RemoveAt(cpus, i) + [c]; CpuAt(r, c.socket) == |r| - 1 && r[|r| - 1] == c
  {
    var r := RemoveAt(cpus, i) + [c];
    FirstCpu(r, c.socket, |r| - 1);
  }

  // ----- the sweep -----

  /** listaEspera after i turns of the sweep: the odd positions passed so far and the rest. */
  function Rest(q: seq<int>, i: nat): seq<int> {
    if 2 * i <= |q| then Odds(q)[..i] + q[2 * i..] else Odds(q)
  }

  lemma SweepTurn(q: seq<int>, i: nat)
    requires 2 * i < |q|
    ensures i < |Evens(q)| && i < |Rest(q, i)|
    ensures RemoveAt(Rest(q, i), i) == Rest(q, i + 1)
    ensures Evens(q)[..i] + [Rest(q, i)[i]] == Evens(q)[..i + 1]
  {
    hide Evens, Odds, RemoveAt;
    EvensAt(q, i);
    var passed := Odds(q)[..i];
    RemoveMiddle(passed, q[2 * i..]);
    assert q[2 * i..][1..] == q[2 * i + 1..];
    if 2 * i + 1 < |q| {
      RestGrows(passed, q[2 * i + 1], q[2 * i + 1..], q[2 * (i + 1)..]);
      assert passed + [q[2 * i + 1]] == Odds(q)[..i + 1];
    } else {
      assert passed == Odds(q) && q[2 * i + 1..] == [];
    }
  }

  lemma RestGrows(a: seq<int>, x: int, b: seq<int>, c: seq<int>)
    requires b != [] && b[0] == x && b[1..] == c
    ensures (a + [x]) + c == a + b
  {
  }

  lemma RemoveMiddle(a: seq<int>, b: seq<int>)
    requires b != []
    ensures (a + b)[|a|] == b[0] && RemoveAt(a + b, |a|) == a + b[1..]
  {
  }

  lemma AtStart(q: seq<int>)
    ensures Rest(q, 0) == q
  {
  }

  lemma InRange(q: seq<int>, i: nat)
    requires i < |Rest(q, i)|
    ensures 2 * i < |q|
  {
  }

  lemma SweepEnds(q: seq<int>, i: nat)
    requires i >= |Rest(q, i)| && i <= |Evens(q)|
    ensures Rest(q, i) == Odds(q) && Evens(q)[..i] == Evens(q)
  {
    EvensAt(q, 0);
  }

  class Kernel {
    var lastPid: nat
    var newcomers: seq<int>
    var ready: seq<int>
    var running: seq<int>
    var blocked: seq<int>
    var ending: seq<int>
    var ended: seq<int>
    var cpus: seq<Cpu>
    var sems: seq<Semaphore>
    var interrupted: seq<int>
    var degree: int
    var limit: int
    var toAdmit: nat
    var toEnd: nat
    var toDispatch: nat
    var freeCpus: nat
    var holding: bool

    ghost function Now(): State
      reads this
    {
      State(lastPid, newcomers, ready, running, blocked, ending, ended, cpus, sems, interrupted,
            degree, limit, toAdmit, toEnd, toDispatch, freeCpus, holding)
    }

    /** The queues partition the pids, CPUs and queues agree, and every token is accounted
        for. */
    ghost predicate Valid()
      reads this
    {
      Inv(Now())
    }

    /** inicializarListas, inicializarSemaforos and obtenerSemaforosANSISOPDeLasConfigs. */
    constructor (degreeLimit: nat, configured: seq<(string, int)>)
      requires forall i, j :: 0 <= i < j < |configured| ==> configured[i].0 != configured[j].0
      ensures Valid() && Initial(Now()) && limit == degreeLimit && |sems| == |configured|
      ensures forall i :: 0 <= i < |sems| ==> sems[i] == Semaphore(configured[i].0, configured[i].1, [])
    {
      lastPid, degree, limit := 0, 0, degreeLimit;
      newcomers, ready, running, blocked, ending, ended := [], [], [], [], [], [];
      cpus, interrupted := [], [];
      toAdmit, toEnd, toDispatch, freeCpus, holding := 0, 0, 0, 0, false;
      sems := [];
      new;
      var i := 0;
      while i < |configured|
        invariant 0 <= i <= |configured| && |sems| == i
        invariant forall k :: 0 <= k < i ==> sems[k] == Semaphore(configured[k].0, configured[k].1, [])
        invariant Now() == State(0, [], [], [], [], [], [], [], sems, [], 0, degreeLimit, 0, 0, 0, 0, false)
      {
        sems := sems + [Semaphore(configured[i].0, configured[i].1, [])];
        i := i + 1;
      }
      InitialInv(Now());
    }

    // ----- long term -----

    /** gestionarNuevoPrograma_ANSISOP: the program gets a pid no process has had. */
    method NewProgram() returns (pid: int)
      requires Valid()
      modifies this
      ensures Valid() && Now() == Step(old(Now()), EvNewProgram)
      ensures forall q :: 0 <= q < 6 ==> pid !in Queues(old(Now()))[q]
      ensures pid in newcomers
    {
      ghost var s := Now();
      StepInv(s, EvNewProgram);
      OneQueue(s, lastPid + 1);
      hide Inv;
      lastPid := lastPid + 1;
      pid := lastPid;
      newcomers := newcomers + [pid];
      toAdmit := toAdmit + 1;
    }

    /** A turn of administrarNuevosProcesos: the longest-waiting newcomer is admitted iff
        there is one and the degree has room for it. */
    method AdmitNewProcess()
      requires Valid() && Enabled(Now(), EvAdmit)
      modifies this
      ensures Valid() && Now() == Step(old(Now()), EvAdmit)
      ensures degree <= limit
      ensures old(newcomers) != [] && old(degree < limit) ==>
                var pid := old(newcomers)[0]; pid in ready && pid !in newcomers
      ensures old(newcomers) == [] || old(degree >= limit) ==> newcomers == old(newcomers) && ready == old(ready)
    {
      Admitted(Now());
      hide Inv, Step, Admit;
      AdmitTurn();
    }

    method AdmitTurn()
      requires toAdmit > 0
      modifies this
      ensures Now() == Admit(old(Now()))
    {
      AdmitIs(Now());
      hide Admit;
      toAdmit := toAdmit - 1;
      if !(degree >= limit) && |newcomers| > 0 {
        var pid := newcomers[0];
        newcomers := newcomers[1..];
        ready, degree, toDispatch := ready + [pid], degree + 1, toDispatch + 1;
      }
    }

    /** terminarProceso, as far as the queues go. */
    method TerminateProcess(pid: int)
      modifies this`ended, this`degree, this`toAdmit
      ensures Now() == End(old(Now()), pid)
    {
      ended := ended + [pid];
      degree := degree - 1;
      toAdmit := toAdmit + 1;
    }

    /** The sweep over listaEspera: it removes at an index that keeps growing. */
    method TerminateListed()
      modifies this`ending, this`ended, this`degree, this`toAdmit
      ensures var n := |Evens(old(ending))|;
        Now() == old(Now()).(ending := Odds(old(ending)), ended := old(ended) + Evens(old(ending)),
                             degree := old(degree) - n, toAdmit := old(toAdmit) + n)
    {
      hide Evens, Odds, RemoveAt, Rest;
      ghost var q := ending;
      assert Rest(q, 0) == q by { AtStart(q); }
      var i := 0;
      while i < |ending|
        invariant 0 <= i <= |Evens(q)| && ending == Rest(q, i)
        invariant ended == old(ended) + Evens(q)[..i]
        invariant degree == old(degree) - i && toAdmit == old(toAdmit) + i
        decreases |q| - i
      {
        InRange(q, i);
        SweepTurn(q, i);
        var pid := ending[i];
        ending := RemoveAt(ending, i);
        TerminateProcess(pid);
        i := i + 1;
      }
      SweepEnds(q, i);
    }

    /** A turn of administrarFinProcesos: whoever waits longest is ended, and whoever is
        left still has a token. */
    method EndProcesses()
      requires Valid() && Enabled(Now(), EvEndSweep)
      modifies this
      ensures Valid() && Now() == Step(old(Now()), EvEndSweep)
      ensures old(ending) != [] ==> old(ending)[0] in ended
      ensures toEnd >= |ending|
    {
      ghost var s := Now();
      Swept(s);
      hide Inv, Evens, Odds, Step, EndAll;
      Sweep();
      assert Now() == Step(s, EvEndSweep);
    }

    method Sweep()
      requires toEnd > 0
      modifies this`toEnd, this`ending, this`ended, this`degree, this`toAdmit
      ensures var n := |Evens(old(ending))|;
        Now() == old(Now()).(toEnd := old(toEnd) - 1, ending := Odds(old(ending)),
                             ended := old(ended) + Evens(old(ending)),
                             degree := old(degree) - n, toAdmit := old(toAdmit) + n)
    {
      toEnd := toEnd - 1;
      if |ending| > 0 {
        TerminateListed();
      }
    }

    // ----- CPUs -----

    /** gestionarNuevaCPU; the entry comes from malloc, its pid holds anything. */
    method NewCpu(socket: int, garbage: int)
      requires Valid() && Enabled(Now(), EvNewCpu(socket, garbage))
      modifies this
      ensures Valid() && Now() == Step(old(Now()), EvNewCpu(socket, garbage))
      ensures Idle(cpus, socket) && IdleSockets(cpus) == IdleSockets(old(cpus)) + [socket]
    {
      ghost var s := Now();
      StepInv(s, EvNewCpu(socket, garbage));
      IdleStep(s, EvNewCpu(socket, garbage));
      FirstCpu(cpus + [Cpu(socket, false, garbage)], socket, |cpus|);
      hide Inv;
      cpus := cpus + [Cpu(socket, false, garbage)];
      freeCpus := freeCpus + 1;
    }

    /** cambiarEstadoCpu. */
    method SetCpuIdle(socket: int)
      requires CpuAt(cpus, socket) >= 0
      modifies this`cpus
      ensures Now() == old(Now()).(cpus := SetIdle(old(cpus), socket))
    {
      var i := FindCpu(cpus, socket);
      var c := cpus[i];
      cpus := RemoveAt(cpus, i);
      c := c.(running := false);
      cpus := cpus + [c];
    }

    /** removerDeColaEjecucion. */
    method RemoveFromRunning(pid: int)
      requires pid in running
      modifies this`running
      ensures Now() == old(Now()).(running := Remove(old(running), pid))
    {
      var found, rest := TakePid(running, pid);
      running := rest;
    }

    /** removerDeColaEjecucion, cambiarEstadoCpu and sem_post(&sem_CPU). */
    method VacateCpu(socket: int, pid: int)
      requires OnCpu(Now(), socket) && pid == PidOn(Now(), socket)
      modifies this`running, this`cpus, this`freeCpus
      ensures Now() == LeaveCpu(old(Now()), socket)
    {
      hide Remove, SetIdle, CpuAt;
      RemoveFromRunning(pid);
      SetCpuIdle(socket);
      freeCpus := freeCpus + 1;
    }

    /** The same with encolarEnListaParaTerminar: the process waits to be ended. */
    method VacateToEnd(socket: int, pid: int)
      requires OnCpu(Now(), socket) && pid == PidOn(Now(), socket)
      modifies this`running, this`cpus, this`freeCpus, this`ending, this`toEnd
      ensures Now() == QueueToEnd(LeaveCpu(old(Now()), socket), pid, 1)
    {
      hide LeaveCpu;
      LeaveCpuIs(Now(), socket);
      VacateCpu(socket, pid);
      ending, toEnd := ending + [pid], toEnd + 1;
    }

    // ----- short term -----

    /** planificarCortoPlazo past its first sem_wait: some CPU is idle. */
    method WaitForCpu()
      requires Valid() && Enabled(Now(), EvTakeCpu)
      modifies this
      ensures Valid() && Now() == Step(old(Now()), EvTakeCpu)
      ensures exists i :: 0 <= i < |cpus| && !cpus[i].running
    {
      ghost var s := Now();
      StepInv(s, EvTakeCpu);
      HoldingMeansIdle(Step(s, EvTakeCpu));
      hide Inv, IdleCpu;
      freeCpus := freeCpus - 1;
      holding := true;
      assert !cpus[IdleCpu(cpus)].running;
    }

    /** The first idle CPU, if any, is marked and goes to the end of the list. */
    method TakeIdleCpu(pid: int) returns (found: bool)
      modifies this`cpus
      ensures found <==> IdleCpu(old(cpus)) >= 0
      ensures !found ==> cpus == old(cpus)
      ensures found ==>
                var i := IdleCpu(old(cpus));
                Now() == old(Now()).(cpus := RemoveAt(old(cpus), i) + [Cpu(old(cpus)[i].socket, true, pid)])
    {
      hide RemoveAt, IdleCpu;
      var i := FindIdle(cpus);
      found := i >= 0;
      if found {
        var c := cpus[i];
        cpus := RemoveAt(cpus, i);
        c := c.(running := true, pid := pid);
        cpus := cpus + [c];
      }
    }

    /** The rest of the turn, requeueing branch included. */
    method DispatchNext()
      requires toDispatch > 0 && ready != []
      modifies this`toDispatch, this`ready, this`cpus, this`running, this`holding
      ensures Now() == Dispatch(old(Now()))
    {
      hide RemoveAt, IdleCpu;
      var pid := ready[0];
      toDispatch, ready, holding := toDispatch - 1, ready[1..], false;
      assert Now() == old(Now()).(toDispatch := toDispatch, ready := ready, holding := holding);
      var found := TakeIdleCpu(pid);
      if found {
        running := running + [pid];
      } else {
        ready := ready + [pid];
        toDispatch := toDispatch + 1;
      }
    }

    /** In every reachable state the turn puts the process that has been ready longest on the
        first idle CPU of listaCPU, the one idle longest, and it is executing there. */
    method DispatchProcess() returns (ghost socket: int)
      requires Valid() && Enabled(Now(), EvDispatch)
      modifies this
      ensures Valid() && Now() == Step(old(Now()), EvDispatch)
      ensures old(ready) != []
      ensures Idle(old(cpus), socket) && Executes(cpus, socket, old(ready)[0])
      ensures IdleSockets(old(cpus)) == [socket] + IdleSockets(cpus)
    {
      socket := Dispatched(Now());
      hide Inv, Step, Dispatch, Idle, Executes, IdleSockets;
      DispatchNext();
    }

    /** gestionarFinQuantum_RoundRobin; the CPU returns the PCB it was given. The process
        goes behind everyone who is ready, and its CPU is idle. */
    method QuantumOver(socket: int, pid: int)
      requires Valid() && Enabled(Now(), EvQuantumEnd(socket)) && pid == PidOn(Now(), socket)
      modifies this
      ensures Valid() && Now() == Step(old(Now()), EvQuantumEnd(socket))
      ensures ready == old(ready) + [pid] && pid !in running && Idle(cpus, socket)
      ensures IdleSockets(cpus) == IdleSockets(old(cpus)) + [socket]
    {
      ghost var s := Now();
      QuantumEnded(s, socket);
      hide Inv, Step, LeaveCpu, OnCpu, Idle;
      VacateCpu(socket, pid);
      ready := ready + [pid];
      toDispatch := toDispatch + 1;
    }

    /** gestionarFinProcesoCPU, expropiarPorEjecucion with the exceptions of the heap and the
        file system, excepcionDireccionInvalida and excepcionStackOverflow, which differ in
        the order of their updates and in the second token of the last. The process waits
        to be ended, with a token for it, and its CPU is idle. */
    method TakeOffCpu(socket: int, pid: int, why: Reason)
      requires Valid() && Enabled(Now(), EvTakeOff(socket, why)) && pid == PidOn(Now(), socket)
      modifies this
      ensures Valid() && Now() == Step(old(Now()), EvTakeOff(socket, why))
      ensures ending == old(ending) + [pid] && toEnd > 0 && pid !in running && Idle(cpus, socket)
      ensures toEnd == old(toEnd) + (if why.StackOverflow? then 2 else 1)
      ensures IdleSockets(cpus) == IdleSockets(old(cpus)) + [socket]
    {
      ghost var s := Now();
      TakenOff(s, socket, why);
      hide Inv, Step, LeaveCpu, OnCpu, Idle;
      VacateToEnd(socket, pid);
      if why.StackOverflow? {
        toEnd := toEnd + 1;
      }
    }

    /** verificarInterrupcionesEnCPU: is the process on this CPU to be taken off it? */
    method MustStop(socket: int) returns (stop: bool)
      requires OnCpu(Now(), socket)
      ensures stop <==> PidOn(Now(), socket) in interrupted
    {
      var at := FindCpu(cpus, socket);
      var pid := cpus[at].pid;
      stop := false;
      var i := 0;
      while i < |interrupted|
        invariant 0 <= i <= |interrupted|
        invariant stop <==> pid in interrupted[..i]
      {
        if interrupted[i] == pid {
          stop := true;
        }
        i := i + 1;
      }
    }

    /** recibirProcesoExpropiadoVoluntariamente: one word left for the process is taken back,
        and it waits to be ended. */
    method ReceiveExpropriated(socket: int, pid: int)
      requires Valid() && Enabled(Now(), EvExpropriated(socket)) && pid == PidOn(Now(), socket)
      modifies this
      ensures Valid() && Now() == Step(old(Now()), EvExpropriated(socket))
      ensures ending == old(ending) + [pid] && pid !in running && Idle(cpus, socket)
      ensures IdleSockets(cpus) == IdleSockets(old(cpus)) + [socket]
      ensures Times(interrupted, pid) == old(Times(interrupted, pid)) - 1
    {
      ghost var s := Now();
      HandedOver(s, socket);
      LeaveCpuIs(s, socket);
      hide Inv, Step, LeaveCpu, OnCpu, Remove, Idle, Times;
      VacateToEnd(socket, pid);
      var found, rest := TakePid(interrupted, pid);
      interrupted := rest;
    }

    // ----- ANSISOP semaphores -----

    /** disminuirYConsultarSemaforo: the semaphore goes to the end of the list. */
    method DecreaseSemaphore(id: string) returns (mustBlock: bool)
      requires SemAt(sems, id) >= 0
      modifies this`sems
      ensures var i := SemAt(old(sems), id); var m := old(sems)[i].(value := old(sems)[i].value - 1);
        Now() == old(Now()).(sems := RemoveAt(old(sems), i) + [m]) && (mustBlock <==> m.value < 0)
    {
      var i := FindSem(sems, id);
      var m := sems[i];
      sems := RemoveAt(sems, i);
      m := m.(value := m.value - 1);
      mustBlock := m.value < 0;
      sems := sems + [m];
    }

    /** encolarProcesoBloqueadoASemaforo. */
    method QueueOnSemaphore(pid: int, id: string)
      requires SemAt(sems, id) >= 0
      modifies this`sems
      ensures var i := SemAt(old(sems), id); var m := old(sems)[i].(pids := old(sems)[i].pids + [pid]);
        Now() == old(Now()).(sems := RemoveAt(old(sems), i) + [m])
    {
      var i := FindSem(sems, id);
      var m := sems[i];
      sems := RemoveAt(sems, i);
      m := m.(pids := m.pids + [pid]);
      sems := sems + [m];
    }

    /** expropiarProcesoBloqueado. */
    method ExpropriateBlocked(socket: int, id: string, pid: int)
      requires OnCpu(Now(), socket) && SemAt(sems, id) >= 0 && pid == PidOn(Now(), socket)
      modifies this`running, this`cpus, this`blocked, this`freeCpus, this`sems
      ensures var i := SemAt(old(sems), id); var m := old(sems)[i].(pids := old(sems)[i].pids + [pid]);
        Now() == LeaveCpu(old(Now()), socket).(blocked := old(blocked) + [pid], sems := RemoveAt(old(sems), i) + [m])
    {
      hide Remove, SetIdle, CpuAt, SemAt, RemoveAt;
      LeaveCpuIs(old(Now()), socket);
      VacateCpu(socket, pid);
      blocked := blocked + [pid];
      QueueOnSemaphore(pid, id);
    }

    /** waitSemaforoAnsisop: the process blocks, behind those that wait on the semaphore, iff
        no unit was left. */
    method WaitSemaphore(socket: int, id: string, pid: int) returns (blocks: bool)
      requires Valid() && Enabled(Now(), EvWait(socket, id)) && pid == PidOn(Now(), socket)
      modifies this
      ensures Valid() && Now() == Step(old(Now()), EvWait(socket, id))
      ensures blocks <==> old(Value(Now(), id)) <= 0
      ensures Waiting(Now(), ForSemaphore(id))
           == old(Waiting(Now(), ForSemaphore(id))) + if blocks then [pid] else []
      ensures if blocks
              then pid in blocked && Idle(cpus, socket) && IdleSockets(cpus) == IdleSockets(old(cpus)) + [socket]
              else cpus == old(cpus)
    {
      Waited(Now(), socket, id);
      hide Inv, Step, Wait, SemAt, Waiting, Value;
      blocks := Decrease(socket, id, pid);
    }

    /** disminuirYConsultarSemaforo and, below zero, expropiarProcesoBloqueado. */
    method Decrease(socket: int, id: string, pid: int) returns (mustBlock: bool)
      requires Valid() && OnCpu(Now(), socket) && SemAt(sems, id) >= 0 && pid == PidOn(Now(), socket)
      modifies this
      ensures Now() == Wait(old(Now()), socket, id)
      ensures mustBlock <==> old(sems)[SemAt(old(sems), id)].value - 1 < 0
    {
      ghost var s, i := Now(), SemAt(sems, id);
      hide Inv, Remove, SetIdle, CpuAt, SemAt, RemoveAt, LeaveCpu;
      mustBlock := DecreaseSemaphore(id);
      if mustBlock {
        LastAfterRotation(s, i, sems[|sems| - 1]);
        ExpropriateBlocked(socket, id, pid);
        SameLeaving(s, socket, RemoveAt(s.sems, i) + [s.sems[i].(value := s.sems[i].value - 1)]);
      }
    }

    /** desbloquearProceso. */
    method Unblock(pid: int)
      requires pid in blocked
      modifies this`blocked, this`ready, this`toDispatch
      ensures Now() == MakeReady(old(Now()), pid).(blocked := Remove(old(blocked), pid))
    {
      var found, rest := TakePid(blocked, pid);
      blocked := rest;
      ready := ready + [pid];
      toDispatch := toDispatch + 1;
    }

    /** signalSemaforoAnsisop: the longest-waiting process, if
        any, is ready, and nobody else is touched. */
    method SignalSemaphore(socket: int, id: string)
      requires Valid() && Enabled(Now(), EvSignal(socket, id))
      modifies this
      ensures Valid() && Now() == Step(old(Now()), EvSignal(socket, id))
      ensures ready == old(ready) + FirstIn(old(Waiting(Now(), ForSemaphore(id))))
      ensures Waiting(Now(), ForSemaphore(id)) == Behind(old(Waiting(Now(), ForSemaphore(id))))
    {
      Signalled(Now(), socket, id);
      hide Inv, Step, Signal, SemAt, Waiting;
      Increase(id);
    }

    /** aumentarYConsultarSemaforo. */
    method Increase(id: string)
      requires SemAt(sems, id) >= 0
      requires sems[SemAt(sems, id)].pids != [] ==> sems[SemAt(sems, id)].pids[0] in blocked
      modifies this
      ensures Now() == Signal(old(Now()), id)
    {
      hide Remove, RemoveAt, SemAt;
      var i := FindSem(sems, id);
      var m := sems[i];
      sems := RemoveAt(sems, i);
      m := m.(value := m.value + 1);
      if |m.pids| > 0 {
        var pid := m.pids[0];
        m := m.(pids := m.pids[1..]);
        Unblock(pid);
      }
      sems := sems + [m];
    }

    /** verificarPidColaSemaforos: both loops advance past what they remove. */
    method ForgetInSemaphores(pid: int)
      modifies this`sems
      ensures sems == Forget(old(sems), pid)
    {
      ghost var was := sems;
      var i := 0;
      while i < |sems|
        invariant 0 <= i <= |sems| == |was|
        invariant forall k :: 0 <= k < i ==> sems[k] == Forget(was, pid)[k]
        invariant forall k :: i <= k < |was| ==> sems[k] == was[k]
        decreases |was| - i
      {
        var q := ForgetIn(sems[i].pids, pid);
        sems := sems[i := sems[i].(pids := q)];
        i := i + 1;
      }
    }

    /** Its inner loop, over the pids of one semaphore. */
    static method ForgetIn(pids: seq<int>, pid: int) returns (q: seq<int>)
      ensures q == DropSkipping(pids, (x: int) => x == pid)
    {
      ghost var mine := (x: int) => x == pid;
      q := pids;
      var j := 0;
      while j < |q|
        invariant 0 <= j <= |q| + 1
        invariant DropSkipping(pids, mine) == if j <= |q| then q[..j] + DropSkipping(q[j..], mine) else q
        decreases |q| - j
      {
        DropTurn(q, j, mine);
        if pid == q[j] {
          q := RemoveAt(q, j);
        }
        j := j + 1;
      }
    }

    // ----- killing -----

    /** buscarProcesoYTerminarlo, on an admitted process: it is ended at once, wherever it
        waits, unless a CPU executes it; then word is left for it. */
    method FindAndTerminate(pid: int)
      requires Valid() && Enabled(Now(), EvKill(pid))
      modifies this
      ensures Valid() && Now() == Step(old(Now()), EvKill(pid))
      ensures if old(pid in running) then pid in running && pid in interrupted
              else pid in ended && pid !in ready + blocked + ending
    {
      Killed(Now(), pid);
      hide Inv, Step, Kill;
      Terminate(pid);
    }

    method Terminate(pid: int)
      requires pid in ending + running + ready + blocked
      requires pid in ready ==> toDispatch > 0
      modifies this
      ensures Now() == Kill(old(Now()), pid)
    {
      hide Forget, Remove;
      var found, rest := TakePid(ending, pid);
      if found {
        ending := rest;
      } else if pid in running {
        interrupted := interrupted + [pid];
        return;
      } else {
        TerminateIdle(pid);
      }
      TerminateProcess(pid);
    }

    /** A process ready or blocked leaves its queue, and every semaphore. */
    method TerminateIdle(pid: int)
      requires pid in ready + blocked
      requires pid in ready ==> toDispatch > 0
      modifies this`ready, this`toDispatch, this`blocked, this`sems
      ensures Now() == if pid in old(ready)
                       then old(Now()).(ready := Remove(old(ready), pid), toDispatch := old(toDispatch) - 1)
                       else old(Now()).(blocked := Remove(old(blocked), pid), sems := Forget(old(sems), pid))
    {
      hide Forget, Remove;
      var found, rest := TakePid(ready, pid);
      if found {
        ready := rest;
        toDispatch := toDispatch - 1;
      } else {
        found, rest := TakePid(blocked, pid);
        blocked := rest;
        ForgetInSemaphores(pid);
      }
    }
  }

  lemma WithinDegree(s: State)
    requires Inv(s)
    ensures s.degree <= s.limit
  {
  }

  lemma EnoughTokens(s: State)
    requires Inv(s)
    ensures s.toEnd >= |s.ending|
  {
  }

  lemma FirstEnds(q: seq<int>)
    ensures q != [] ==> q[0] in Evens(q)
  {
    if q != [] {
      assert Evens(q)[0] == q[0];
    }
  }

  lemma Sockets(s: State)
    requires Inv(s)
    ensures DistinctSockets(s.cpus)
  {
  }

  lemma HoldingMeansIdle(s: State)
    requires Inv(s) && s.holding
    ensures IdleCpu(s.cpus) >= 0
  {
    IdleExists(s.cpus);
  }

  lemma DispatchedCpu(s: State)
    requires Inv(s) && s.ready != [] && IdleCpu(s.cpus) >= 0
    ensures var i := IdleCpu(s.cpus); var r := RemoveAt(s.cpus, i) + [Cpu(s.cpus[i].socket, true, s.ready[0])];
      Idle(s.cpus, s.cpus[i].socket) && Executes(r, s.cpus[i].socket, s.ready[0])
  {
    hide Partition, SemsOk, TokensOk;
    var i := IdleCpu(s.cpus);
    FirstCpu(s.cpus, s.cpus[i].socket, i);
    MovedCpu(s.cpus, i, Cpu(s.cpus[i].socket, true, s.ready[0]));
  }

  // ----- each step, as its caller sees it -----

  lemma AdmitIs(s: State)
    requires s.toAdmit > 0
    ensures Admit(s) == if s.degree < s.limit && s.newcomers != []
                        then s.(toAdmit := s.toAdmit - 1, newcomers := s.newcomers[1..], degree := s.degree + 1,
                                ready := s.ready + [s.newcomers[0]], toDispatch := s.toDispatch + 1)
                        else s.(toAdmit := s.toAdmit - 1)
  {
  }

  lemma Admitted(s: State)
    requires Inv(s) && Enabled(s, EvAdmit)
    ensures var t := Admit(s);
      && Inv(t) && t == Step(s, EvAdmit) && t.degree <= t.limit
      && (s.newcomers != [] && s.degree < s.limit ==> s.newcomers[0] in t.ready && s.newcomers[0] !in t.newcomers)
      && (s.newcomers == [] || s.degree >= s.limit ==> t.newcomers == s.newcomers && t.ready == s.ready)
  {
    StepInv(s, EvAdmit);
    var t := Admit(s);
    WithinDegree(t);
    if s.newcomers != [] && s.degree < s.limit {
      assert t.ready[|t.ready| - 1] == s.newcomers[0];
      OneQueue(t, s.newcomers[0]);
    }
  }

  lemma Swept(s: State)
    requires Inv(s) && Enabled(s, EvEndSweep)
    ensures var t := Step(s, EvEndSweep);
      && Inv(t)
      && t == s.(toEnd := s.toEnd - 1, ending := Odds(s.ending), ended := s.ended + Evens(s.ending),
                 degree := s.degree - |Evens(s.ending)|, toAdmit := s.toAdmit + |Evens(s.ending)|)
      && (s.ending != [] ==> s.ending[0] in t.ended)
      && t.toEnd >= |t.ending|
      && (s.ending == [] ==> t == s.(toEnd := s.toEnd - 1))
  {
    StepInv(s, EvEndSweep);
    EnoughTokens(Step(s, EvEndSweep));
    FirstEnds(s.ending);
    hide Inv;
    EndAllIs(s.(toEnd := s.toEnd - 1, ending := Odds(s.ending)), Evens(s.ending));
    assert s.ending == [] ==> s.ended + [] == s.ended;
  }

  lemma Dispatched(s: State) returns (socket: int)
    requires Inv(s) && Enabled(s, EvDispatch)
    ensures s.ready != [] && s.toDispatch > 0
    ensures Inv(Step(s, EvDispatch)) && Step(s, EvDispatch) == Dispatch(s)
    ensures Idle(s.cpus, socket) && Executes(Dispatch(s).cpus, socket, s.ready[0])
    ensures IdleSockets(s.cpus) == [socket] + IdleSockets(Dispatch(s).cpus)
  {
    StepInv(s, EvDispatch);
    IdleStep(s, EvDispatch);
    FirstIdleIs(s.cpus);
    DispatchKeeps(s);
    DispatchedCpu(s);
    socket := s.cpus[IdleCpu(s.cpus)].socket;
  }

  lemma LeftCpu(s: State, t: State, socket: int, pid: int)
    requires Inv(s) && OnCpu(s, socket) && Inv(t) && t.cpus == SetIdle(s.cpus, socket)
    requires pid in t.ready + t.ending + t.blocked
    ensures Idle(t.cpus, socket) && pid !in t.running
  {
    Sockets(s);
    LeftIdle(s.cpus, socket);
    OneQueue(t, pid);
  }

  lemma QuantumEnded(s: State, socket: int)
    requires Inv(s) && Enabled(s, EvQuantumEnd(socket))
    ensures var t, pid := QuantumEnd(s, socket), PidOn(s, socket);
      && Inv(t) && t == Step(s, EvQuantumEnd(socket))
      && t.ready == s.ready + [pid] && pid !in t.running && Idle(t.cpus, socket)
      && IdleSockets(t.cpus) == IdleSockets(s.cpus) + [socket]
  {
    StepInv(s, EvQuantumEnd(socket));
    IdleStep(s, EvQuantumEnd(socket));
    hide Inv;
    var t := QuantumEnd(s, socket);
    assert t.ready[|t.ready| - 1] == PidOn(s, socket);
    LeftCpu(s, t, socket, PidOn(s, socket));
  }

  lemma TakenOff(s: State, socket: int, why: Reason)
    requires Inv(s) && Enabled(s, EvTakeOff(socket, why))
    ensures var t, pid := TakeOff(s, socket, why), PidOn(s, socket);
      && Inv(t) && t == Step(s, EvTakeOff(socket, why))
      && t.ending == s.ending + [pid] && pid !in t.running && Idle(t.cpus, socket)
      && IdleSockets(t.cpus) == IdleSockets(s.cpus) + [socket]
  {
    StepInv(s, EvTakeOff(socket, why));
    IdleStep(s, EvTakeOff(socket, why));
    hide Inv;
    var t := TakeOff(s, socket, why);
    assert t.ending[|t.ending| - 1] == PidOn(s, socket);
    LeftCpu(s, t, socket, PidOn(s, socket));
  }

  lemma HandedOver(s: State, socket: int)
    requires Inv(s) && Enabled(s, EvExpropriated(socket))
    ensures var t, pid := Expropriated(s, socket), PidOn(s, socket);
      && Inv(t) && t == Step(s, EvExpropriated(socket))
      && t.ending == s.ending + [pid] && pid !in t.running && Idle(t.cpus, socket)
      && IdleSockets(t.cpus) == IdleSockets(s.cpus) + [socket]
      && Times(t.interrupted, pid) == Times(s.interrupted, pid) - 1
  {
    StepInv(s, EvExpropriated(socket));
    IdleStep(s, EvExpropriated(socket));
    hide Inv;
    var t := Expropriated(s, socket);
    assert t.ending[|t.ending| - 1] == PidOn(s, socket);
    LeftCpu(s, t, socket, PidOn(s, socket));
    RemoveTimes(s.interrupted, PidOn(s, socket), PidOn(s, socket));
  }

  lemma Waited(s: State, socket: int, id: string)
    requires Inv(s) && Enabled(s, EvWait(socket, id))
    ensures var t, pid, blocks := Wait(s, socket, id), PidOn(s, socket), Value(s, id) <= 0;
      && Inv(t) && t == Step(s, EvWait(socket, id))
      && (s.sems[SemAt(s.sems, id)].value - 1 < 0 <==> blocks)
      && Waiting(t, ForSemaphore(id)) == Waiting(s, ForSemaphore(id)) + (if blocks then [pid] else [])
      && (if blocks then pid in t.blocked && Idle(t.cpus, socket) && IdleSockets(t.cpus) == IdleSockets(s.cpus) + [socket]
          else t.cpus == s.cpus)
  {
    StepInv(s, EvWait(socket, id));
    IdleStep(s, EvWait(socket, id));
    SemStep(s, EvWait(socket, id), id);
    hide Inv, SemAt;
    var t, pid := Wait(s, socket, id), PidOn(s, socket);
    if Value(s, id) <= 0 {
      assert t.blocked[|t.blocked| - 1] == pid;
      LeftCpu(s, t, socket, pid);
    } else {
      assert Waiting(s, ForSemaphore(id)) + [] == Waiting(s, ForSemaphore(id));
    }
  }

  function FirstIn(q: seq<int>): seq<int> { if q == [] then [] else [q[0]] }

  function Behind(q: seq<int>): seq<int> { if q == [] then [] else q[1..] }

  lemma Signalled(s: State, socket: int, id: string)
    requires Inv(s) && Enabled(s, EvSignal(socket, id))
    ensures s.sems[SemAt(s.sems, id)].pids != [] ==> s.sems[SemAt(s.sems, id)].pids[0] in s.blocked
    ensures var t := Signal(s, id);
      && Inv(t) && t == Step(s, EvSignal(socket, id))
      && t.ready == s.ready + FirstIn(Waiting(s, ForSemaphore(id)))
      && Waiting(t, ForSemaphore(id)) == Behind(Waiting(s, ForSemaphore(id)))
  {
    hide Inv, SemAt, OnCpu, CpuAt, Remove, RemoveAt;
    var e := EvSignal(socket, id);
    StepInv(s, e);
    EnabledMeans(s, e);
    SemStep(s, e, id);
    assert Signal(s, id) == Step(s, e);
    assert s.ready + [] == s.ready;
  }

  lemma Killed(s: State, pid: int)
    requires Inv(s) && Enabled(s, EvKill(pid))
    ensures pid in s.ready ==> s.toDispatch > 0
    ensures var t := Kill(s, pid);
      && Inv(t) && t == Step(s, EvKill(pid))
      && (if pid in s.running then pid in t.running && pid in t.interrupted
          else pid in t.ended && pid !in t.ready + t.blocked + t.ending)
  {
    StepInv(s, EvKill(pid));
    EnabledMeans(s, EvKill(pid));
    OneQueue(s, pid);
    var t := Kill(s, pid);
    OneQueue(t, pid);
    hide Inv, Forget, Remove;
    if pid in s.running {
      assert t.interrupted[|t.interrupted| - 1] == pid;
    } else {
      assert t.ended[|t.ended| - 1] == pid;
    }
  }

  /** Leaving a CPU does not look at the semaphores. */
  lemma SameLeaving(s: State, socket: int, sems: seq<Semaphore>)
    requires OnCpu(s, socket)
    ensures OnCpu(s.(sems := sems), socket)
    ensures LeaveCpu(s.(sems := sems), socket) == LeaveCpu(s, socket).(sems := sems)
  {
  }

  lemma LastAfterRotation(s: State, i: nat, m: Semaphore)
    requires Inv(s) && i < |s.sems| && m.id == s.sems[i].id
    ensures SemAt(RemoveAt(s.sems, i) + [m], m.id) == |s.sems| - 1
    ensures RemoveAt(RemoveAt(s.sems, i) + [m], |s.sems| - 1) == RemoveAt(s.sems, i)
  {
    hide Partition, CpusOk, TokensOk;
    var n := m.(pids := [], value := 0);
    SemMovedBounded(s.sems, i, n);
    FoundAt(RemoveAt(s.sems, i) + [n], |s.sems| - 1);
    SameIds(RemoveAt(s.sems, i) + [n], RemoveAt(s.sems, i) + [m], m.id);
  }

  /** A search by name sees only the names. */
  lemma {:induction false} SameIds(a: seq<Semaphore>, b: seq<Semaphore>, id: string)
    requires |a| == |b| && forall k :: 0 <= k < |a| ==> a[k].id == b[k].id
    ensures SemAt(a, id) == SemAt(b, id)
  {
    if a != [] {
      SameIds(a[1..], b[1..], id);
    }
  }
}
