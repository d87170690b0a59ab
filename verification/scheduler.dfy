/** The kernel's scheduler as a state machine: process queues, CPUs, the POSIX semaphores
    that wake its threads and the ANSISOP semaphores that block programs. One step is one
    request handled or one turn of a thread. Queues hold pids. */
module Scheduler {
  import opened Lists

  datatype Cpu = Cpu(socket: int, running: bool, pid: int)

  /** t_semaforoAsociado. */
  datatype Semaphore = Semaphore(id: string, value: int, pids: seq<int>)

  datatype State = State(
    lastPid: nat,               // contadorPid
    newcomers: seq<int>,        // colaNuevos
    ready: seq<int>,            // colaListos
    running: seq<int>,          // colaEjecucion
    blocked: seq<int>,          // colaBloqueados
    ending: seq<int>,           // listaEspera
    ended: seq<int>,            // colaTerminados
    cpus: seq<Cpu>,             // listaCPU
    sems: seq<Semaphore>,       // colaSemaforos
    interrupted: seq<int>,      // listaProcesosInterrumpidos
    degree: int,                // gradoMultiProgramacion
    limit: int,                 // config_gradoMultiProgramacion
    toAdmit: nat,               // sem_admitirNuevoProceso
    toEnd: nat,                 // sem_administrarFinProceso
    toDispatch: nat,            // sem_procesoListo
    freeCpus: nat,              // sem_CPU
    holding: bool)              // the dispatcher is past sem_wait(&sem_CPU)

  // ----- list searches -----

  /** Index of a pid in a queue, or -1. */
  function IndexOf(q: seq<int>, pid: int): (i: int)
    ensures -1 <= i < |q|
    ensures i >= 0 <==> pid in q
    ensures i >= 0 ==> q[i] == pid
  {
    if q == [] then -1
    else if q[0] == pid then 0
    else
      var i := IndexOf(q[1..], pid);
      if i < 0 then -1 else i + 1
  }

  /** list_remove_by_condition on a pid. */
  function Remove(q: seq<int>, pid: int): (r: seq<int>)
    requires pid in q
    ensures |r| == |q| - 1
  {
    RemoveAt(q, IndexOf(q, pid))
  }

  function CpuAt(cpus: seq<Cpu>, socket: int): (i: int)
    ensures -1 <= i < |cpus|
    ensures i >= 0 ==> cpus[i].socket == socket
    ensures i < 0 ==> forall j :: 0 <= j < |cpus| ==> cpus[j].socket != socket
  {
    if cpus == [] then -1
    else if cpus[0].socket == socket then 0
    else
      var i := CpuAt(cpus[1..], socket);
      if i < 0 then -1 else i + 1
  }

  /** The first CPU marked OCIOSA, or -1. */
  function IdleCpu(cpus: seq<Cpu>): (i: int)
    ensures -1 <= i < |cpus|
    ensures i >= 0 ==> !cpus[i].running
    ensures i < 0 ==> forall j :: 0 <= j < |cpus| ==> cpus[j].running
  {
    if cpus == [] then -1
    else if !cpus[0].running then 0
    else
      var i := IdleCpu(cpus[1..]);
      if i < 0 then -1 else i + 1
  }

  function SemAt(sems: seq<Semaphore>, id: string): (i: int)
    ensures -1 <= i < |sems|
    ensures i >= 0 ==> sems[i].id == id
    ensures i < 0 ==> forall j :: 0 <= j < |sems| ==> sems[j].id != id
  {
    if sems == [] then -1
    else if sems[0].id == id then 0
    else
      var i := SemAt(sems[1..], id);
      if i < 0 then -1 else i + 1
  }

  // ----- pieces of a step -----

  /** cambiarEstadoCpu(socket, OCIOSA): the entry goes to the end of the list. */
  function SetIdle(cpus: seq<Cpu>, socket: int): seq<Cpu>
    requires CpuAt(cpus, socket) >= 0
  {
    var i := CpuAt(cpus, socket);
    RemoveAt(cpus, i) + [cpus[i].(running := false)]
  }

  /** The process on a CPU leaves it: removerDeColaEjecucion, cambiarEstadoCpu and
      sem_post(&sem_CPU). */
  function LeaveCpu(s: State, socket: int): State
    requires OnCpu(s, socket)
  {
    s.(running := Remove(s.running, PidOn(s, socket)),
       cpus := SetIdle(s.cpus, socket),
       freeCpus := s.freeCpus + 1)
  }

  /** The CPU at this socket is executing, and its process is in colaEjecucion. */
  predicate OnCpu(s: State, socket: int) {
    && CpuAt(s.cpus, socket) >= 0
    && s.cpus[CpuAt(s.cpus, socket)].running
    && s.cpus[CpuAt(s.cpus, socket)].pid in s.running
  }

  function PidOn(s: State, socket: int): int
    requires OnCpu(s, socket)
  {
    s.cpus[CpuAt(s.cpus, socket)].pid
  }

  /** terminarProceso, as far as the scheduler is concerned. */
  function End(s: State, pid: int): State {
    s.(ended := s.ended + [pid], degree := s.degree - 1, toAdmit := s.toAdmit + 1)
  }

  function EndAll(s: State, pids: seq<int>): State
    decreases |pids|
  {
    if pids == [] then s else EndAll(End(s, pids[0]), pids[1..])
  }

  /** What the sweep over listaEspera removes: it deletes at an index that keeps growing,
      so it takes every other process and leaves the rest for a later token. */
  function Evens(q: seq<int>): seq<int> {
    if |q| <= 1 then q else [q[0]] + Evens(q[2..])
  }

  function Odds(q: seq<int>): (r: seq<int>)
    ensures |r| == |q| / 2
  {
    if |q| <= 1 then [] else [q[1]] + Odds(q[2..])
  }

  /** encolarEnListaParaTerminar, with the tokens the handler posts. */
  function QueueToEnd(s: State, pid: int, tokens: nat): State {
    s.(ending := s.ending + [pid], toEnd := s.toEnd + tokens)
  }

  function MakeReady(s: State, pid: int): State {
    s.(ready := s.ready + [pid], toDispatch := s.toDispatch + 1)
  }

  // ----- steps -----

  /** gestionarNuevoPrograma_ANSISOP, planning not paused. */
  function NewProgram(s: State): State {
    s.(lastPid := s.lastPid + 1, newcomers := s.newcomers + [s.lastPid + 1], toAdmit := s.toAdmit + 1)
  }

  /** One turn of administrarNuevosProcesos; the memory server accepts. */
  function Admit(s: State): State
    requires s.toAdmit > 0
  {
    var t := s.(toAdmit := s.toAdmit - 1);
    if s.degree < s.limit && s.newcomers != [] then
      MakeReady(t.(newcomers := s.newcomers[1..], degree := s.degree + 1), s.newcomers[0])
    else t
  }

  /** One turn of administrarFinProcesos. */
  function EndSweep(s: State): State
    requires s.toEnd > 0
  {
    EndAll(s.(toEnd := s.toEnd - 1, ending := Odds(s.ending)), Evens(s.ending))
  }

  /** gestionarNuevaCPU. */
  function NewCpu(s: State, socket: int, pid: int): State {
    s.(cpus := s.cpus + [Cpu(socket, false, pid)], freeCpus := s.freeCpus + 1)
  }

  /** The dispatcher gets past sem_wait(&sem_CPU). */
  function TakeCpu(s: State): State
    requires s.freeCpus > 0
  {
    s.(freeCpus := s.freeCpus - 1, holding := true)
  }

  /** The rest of a turn of planificarCortoPlazo. */
  function Dispatch(s: State): State
    requires s.toDispatch > 0 && s.ready != []
  {
    var pid := s.ready[0];
    var t := s.(toDispatch := s.toDispatch - 1, holding := false, ready := s.ready[1..]);
    var i := IdleCpu(s.cpus);
    if i >= 0 then
      t.(cpus := RemoveAt(s.cpus, i) + [Cpu(s.cpus[i].socket, true, pid)], running := s.running + [pid])
    else MakeReady(t, pid)
  }

  /** gestionarFinQuantum_RoundRobin, the CPU staying. */
  function QuantumEnd(s: State, socket: int): State
    requires OnCpu(s, socket)
  {
    MakeReady(LeaveCpu(s, socket), PidOn(s, socket))
  }

  /** Why a process is taken off its CPU to be ended. */
  datatype Reason = Finished | Refused | BadAddress | StackOverflow

  /** gestionarFinProcesoCPU, expropiarPorEjecucion with encolarEnListaParaTerminar,
      excepcionDireccionInvalida and excepcionStackOverflow; the last posts its token
      twice. */
  function TakeOff(s: State, socket: int, why: Reason): State
    requires OnCpu(s, socket)
  {
    QueueToEnd(LeaveCpu(s, socket), PidOn(s, socket), if why.StackOverflow? then 2 else 1)
  }

  /** recibirProcesoExpropiadoVoluntariamente. */
  function Expropriated(s: State, socket: int): State
    requires OnCpu(s, socket) && PidOn(s, socket) in s.interrupted
  {
    var pid := PidOn(s, socket);
    QueueToEnd(LeaveCpu(s, socket), pid, 1).(interrupted := Remove(s.interrupted, pid))
  }

  /** waitSemaforoAnsisop: below zero the process blocks and its CPU is freed. */
  function Wait(s: State, socket: int, id: string): State
    requires OnCpu(s, socket) && SemAt(s.sems, id) >= 0
  {
    var i := SemAt(s.sems, id);
    var m := s.sems[i].(value := s.sems[i].value - 1);
    if m.value < 0 then
      var pid := PidOn(s, socket);
      LeaveCpu(s, socket).(blocked := s.blocked + [pid],
                           sems := RemoveAt(s.sems, i) + [m.(pids := m.pids + [pid])])
    else s.(sems := RemoveAt(s.sems, i) + [m])
  }

  /** signalSemaforoAnsisop: the first in the queue, if any, becomes ready. */
  function Signal(s: State, id: string): State
    requires SemAt(s.sems, id) >= 0
    requires s.sems[SemAt(s.sems, id)].pids != [] ==> s.sems[SemAt(s.sems, id)].pids[0] in s.blocked
  {
    var i := SemAt(s.sems, id);
    var m := s.sems[i].(value := s.sems[i].value + 1);
    if m.pids != [] then
      MakeReady(s.(blocked := Remove(s.blocked, m.pids[0]),
                   sems := RemoveAt(s.sems, i) + [m.(pids := m.pids[1..])]), m.pids[0])
    else s.(sems := RemoveAt(s.sems, i) + [m])
  }

  /** verificarPidColaSemaforos. */
  function Forget(sems: seq<Semaphore>, pid: int): (r: seq<Semaphore>)
    ensures |r| == |sems|
  {
    seq(|sems|, i requires 0 <= i < |sems| =>
      sems[i].(pids := DropSkipping(sems[i].pids, (x: int) => x == pid)))
  }

  /** buscarProcesoYTerminarlo, on a process that has been admitted and has not ended. */
  function Kill(s: State, pid: int): State
    requires pid in s.ending + s.running + s.ready + s.blocked
    requires pid in s.ready ==> s.toDispatch > 0
  {
    if pid in s.ending then End(s.(ending := Remove(s.ending, pid)), pid)
    else if pid in s.running then s.(interrupted := s.interrupted + [pid])
    else if pid in s.ready then
      End(s.(ready := Remove(s.ready, pid), toDispatch := s.toDispatch - 1), pid)
    else End(s.(blocked := Remove(s.blocked, pid), sems := Forget(s.sems, pid)), pid)
  }

  datatype Event =
    | EvNewProgram
    | EvAdmit
    | EvEndSweep
    | EvNewCpu(socket: int, garbage: int)
    | EvTakeCpu
    | EvDispatch
    | EvQuantumEnd(socket: int)
    | EvTakeOff(socket: int, why: Reason)
    | EvExpropriated(socket: int)
    | EvWait(socket: int, id: string)
    | EvSignal(socket: int, id: string)
    | EvKill(pid: int)

  /** When a step can happen: a thread's semaphore lets it through, a CPU speaks only while
      it executes, a new socket is a new one, a semaphore name is configured. */
  predicate Enabled(s: State, e: Event) {
    match e
    case EvNewProgram => true
    case EvAdmit => s.toAdmit > 0
    case EvEndSweep => s.toEnd > 0
    case EvNewCpu(socket, _) => CpuAt(s.cpus, socket) < 0
    case EvTakeCpu => s.freeCpus > 0 && !s.holding
    case EvDispatch => s.holding && s.toDispatch > 0
    case EvQuantumEnd(socket) => OnCpu(s, socket)
    case EvTakeOff(socket, _) => OnCpu(s, socket)
    case EvExpropriated(socket) => OnCpu(s, socket) && PidOn(s, socket) in s.interrupted
    case EvWait(socket, id) => OnCpu(s, socket) && SemAt(s.sems, id) >= 0
    case EvSignal(socket, id) => OnCpu(s, socket) && SemAt(s.sems, id) >= 0
    case EvKill(pid) => pid in s.ending + s.running + s.ready + s.blocked
  }

  // ----- what every reachable state satisfies -----

  /** Pids of the CPUs marked EJECUTANDO. */
  function CpuPids(cpus: seq<Cpu>): seq<int> {
    if cpus == [] then [] else (if cpus[0].running then [cpus[0].pid] else []) + CpuPids(cpus[1..])
  }

  function IdleCount(cpus: seq<Cpu>): nat {
    if cpus == [] then 0 else (if cpus[0].running then 0 else 1) + IdleCount(cpus[1..])
  }

  /** Pids queued in any ANSISOP semaphore. */
  function SemPids(sems: seq<Semaphore>): seq<int> {
    if sems == [] then [] else sems[0].pids + SemPids(sems[1..])
  }

  function Max0(x: int): nat { if x < 0 then 0 else x }

  /** How often a pid occurs in a queue. */
  function Times(q: seq<int>, pid: int): nat {
    if q == [] then 0 else (if q[0] == pid then 1 else 0) + Times(q[1..], pid)
  }

  /** How many places, over all queues, a pid takes. */
  function Places(s: State, pid: int): nat {
    Times(s.newcomers, pid) + Times(s.ready, pid) + Times(s.running, pid)
    + Times(s.blocked, pid) + Times(s.ending, pid) + Times(s.ended, pid)
  }

  ghost predicate Partition(s: State) {
    forall pid :: Places(s, pid) == if 1 <= pid <= s.lastPid then 1 else 0
  }

  ghost predicate CpusOk(s: State) {
    && (forall pid :: Times(CpuPids(s.cpus), pid) == Times(s.running, pid))
    && DistinctSockets(s.cpus)
  }

  ghost predicate DistinctSockets(cpus: seq<Cpu>) {
    forall i, j :: 0 <= i < j < |cpus| ==> cpus[i].socket != cpus[j].socket
  }

  ghost predicate SemsOk(s: State) {
    && (forall pid :: Times(SemPids(s.sems), pid) == Times(s.blocked, pid))
    && SemsBounded(s.sems)
  }

  /** Names are different, and no semaphore queues more than its value accounts for. */
  ghost predicate SemsBounded(sems: seq<Semaphore>) {
    && (forall i, j :: 0 <= i < j < |sems| ==> sems[i].id != sems[j].id)
    && (forall i :: 0 <= i < |sems| ==> |sems[i].pids| <= Max0(-sems[i].value))
  }

  ghost predicate TokensOk(s: State) {
    && s.toDispatch == |s.ready|
    && s.freeCpus + (if s.holding then 1 else 0) == IdleCount(s.cpus)
    && s.toEnd >= |s.ending|
    && s.degree == |s.ready| + |s.running| + |s.blocked| + |s.ending|
    && s.degree <= s.limit
    && (s.toAdmit >= |s.newcomers| || s.toAdmit >= s.limit - s.degree)
  }

  ghost predicate Inv(s: State) {
    Partition(s) && CpusOk(s) && SemsOk(s) && TokensOk(s)
  }

  lemma {:induction false} TimesAppend(a: seq<int>, b: seq<int>, pid: int)
    ensures Times(a + b, pid) == Times(a, pid) + Times(b, pid)
  {
    if a == [] {
      assert a + b == b;
    } else {
      TimesAppend(a[1..], b, pid);
      assert (a + b)[1..] == a[1..] + b;
    }
  }

  lemma {:induction false} TimesIn(q: seq<int>, pid: int)
    ensures pid in q <==> Times(q, pid) > 0
  {
    if q != [] {
      TimesIn(q[1..], pid);
    }
  }

  lemma {:induction false} SemPidsHas(sems: seq<Semaphore>, i: nat, pid: int)
    requires i < |sems|
    ensures Times(sems[i].pids, pid) <= Times(SemPids(sems), pid)
  {
    TimesAppend(sems[0].pids, SemPids(sems[1..]), pid);
    if i > 0 {
      SemPidsHas(sems[1..], i - 1, pid);
    }
  }

  lemma QueuedIsBlocked(s: State, i: nat)
    requires SemsOk(s) && i < |s.sems|
    ensures s.sems[i].pids != [] ==> s.sems[i].pids[0] in s.blocked
  {
    if s.sems[i].pids != [] {
      var pid := s.sems[i].pids[0];
      SemPidsHas(s.sems, i, pid);
      TimesIn(s.blocked, pid);
    }
  }

  /** An enabled step finds what it takes: a token means a process in the queue, a pid in a
      semaphore is a blocked process. */
  lemma EnabledMeans(s: State, e: Event)
    requires Inv(s) && Enabled(s, e)
    ensures e.EvDispatch? ==> s.ready != []
    ensures e.EvKill? && e.pid in s.ready ==> s.toDispatch > 0
    ensures e.EvSignal? && s.sems[SemAt(s.sems, e.id)].pids != [] ==>
              s.sems[SemAt(s.sems, e.id)].pids[0] in s.blocked
  {
    hide Times, Partition, CpusOk;
    if e.EvSignal? {
      QueuedIsBlocked(s, SemAt(s.sems, e.id));
    }
  }

  function Step(s: State, e: Event): State
    requires Inv(s) && Enabled(s, e)
  {
    EnabledMeans(s, e);
    match e
    case EvNewProgram => NewProgram(s)
    case EvAdmit => Admit(s)
    case EvEndSweep => EndSweep(s)
    case EvNewCpu(socket, garbage) => NewCpu(s, socket, garbage)
    case EvTakeCpu => TakeCpu(s)
    case EvDispatch => Dispatch(s)
    case EvQuantumEnd(socket) => QuantumEnd(s, socket)
    case EvTakeOff(socket, why) => TakeOff(s, socket, why)
    case EvExpropriated(socket) => Expropriated(s, socket)
    case EvWait(socket, id) => Wait(s, socket, id)
    case EvSignal(_, id) => Signal(s, id)
    case EvKill(pid) => Kill(s, pid)
  }
}
