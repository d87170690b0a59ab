/** Whole runs of the scheduler: what every reachable state satisfies, and how long a process
    can be overtaken. */
module SchedulerRuns {
  import opened Lists
  import opened Scheduler
  import opened SchedulerTheorems

  /** The kernel after reading its configuration: no process, no CPU, the configured
      ANSISOP semaphores with nobody queued. */
  ghost predicate Initial(s: State) {
    && s == State(0, [], [], [], [], [], [], [], s.sems, [], 0, s.limit, 0, 0, 0, 0, false)
    && s.limit >= 0
    && (forall i :: 0 <= i < |s.sems| ==> s.sems[i].pids == [])
    && (forall i, j :: 0 <= i < j < |s.sems| ==> s.sems[i].id != s.sems[j].id)
  }

  lemma {:induction false} NobodyQueued(sems: seq<Semaphore>)
    requires forall i :: 0 <= i < |sems| ==> sems[i].pids == []
    ensures SemPids(sems) == []
  {
    if sems != [] {
      NobodyQueued(sems[1..]);
    }
  }

  lemma InitialInv(s: State)
    requires Initial(s)
    ensures Inv(s)
  {
    NobodyQueued(s.sems);
  }

  ghost predicate Legal(s: State, es: seq<Event>)
    requires Inv(s)
    decreases |es|
  {
    es == [] || (Enabled(s, es[0]) && (StepInv(s, es[0]); Legal(Step(s, es[0]), es[1..])))
  }

  ghost function After(s: State, es: seq<Event>): (t: State)
    requires Inv(s) && Legal(s, es)
    ensures Inv(t)
    decreases |es|
  {
    if es == [] then s else (StepInv(s, es[0]); After(Step(s, es[0]), es[1..]))
  }

  ghost predicate Reachable(s: State) {
    exists o: State, es: seq<Event> :: Initial(o) && (InitialInv(o); Legal(o, es) && After(o, es) == s)
  }

  lemma ReachableInv(s: State)
    requires Reachable(s)
    ensures Inv(s)
  {
  }

  // ----- queues -----

  function Queues(s: State): seq<seq<int>> {
    [s.newcomers, s.ready, s.running, s.blocked, s.ending, s.ended]
  }

  lemma {:induction false} TwiceIn(q: seq<int>, i: nat, j: nat)
    requires i < j < |q| && q[i] == q[j]
    ensures Times(q, q[i]) >= 2
  {
    if i == 0 {
      TimesIn(q[1..], q[0]);
      assert q[1..][j - 1] == q[j];
    } else {
      TwiceIn(q[1..], i - 1, j - 1);
    }
  }

  /** Every pid ever given out is in one queue, at one position; no other pid is in any. */
  lemma OnePlaceEach(s: State, q: nat, i: nat, r: nat, j: nat)
    requires Reachable(s)
    requires q < 6 && i < |Queues(s)[q]| && r < 6 && j < |Queues(s)[r]|
    ensures 1 <= Queues(s)[q][i] <= s.lastPid
    ensures Queues(s)[q][i] == Queues(s)[r][j] ==> q == r && i == j
  {
    hide Times, CpusOk, SemsOk, TokensOk, Reachable;
    ReachableInv(s);
    var x := Queues(s)[q][i];
    TimesIn(Queues(s)[q], x);
    TimesIn(Queues(s)[r], x);
    assert Places(s, x) <= 1;
    if Queues(s)[r][j] == x && q == r && i != j {
      if i < j { TwiceIn(Queues(s)[q], i, j); } else { TwiceIn(Queues(s)[q], j, i); }
    }
  }

  lemma EveryPidHasAPlace(s: State, pid: int)
    requires Reachable(s) && 1 <= pid <= s.lastPid
    ensures exists q :: 0 <= q < 6 && pid in Queues(s)[q]
  {
    hide Times, CpusOk, SemsOk, TokensOk, Reachable;
    ReachableInv(s);
    assert Places(s, pid) == 1;
    TimesIn(Queues(s)[0], pid); TimesIn(Queues(s)[1], pid); TimesIn(Queues(s)[2], pid);
    TimesIn(Queues(s)[3], pid); TimesIn(Queues(s)[4], pid); TimesIn(Queues(s)[5], pid);
  }

  // ----- CPUs -----

  lemma {:induction false} ListedHasCpu(cpus: seq<Cpu>, pid: int)
    requires pid in CpuPids(cpus)
    ensures exists i :: 0 <= i < |cpus| && cpus[i].running && cpus[i].pid == pid
  {
    if !cpus[0].running || cpus[0].pid != pid {
      ListedHasCpu(cpus[1..], pid);
      var i :| 0 <= i < |cpus[1..]| && cpus[1..][i].running && cpus[1..][i].pid == pid;
      assert cpus[i + 1].running && cpus[i + 1].pid == pid;
    }
  }

  lemma {:induction false} SharedPidTwice(cpus: seq<Cpu>, i: nat, j: nat)
    requires i < j < |cpus| && cpus[i].running && cpus[j].running && cpus[i].pid == cpus[j].pid
    ensures Times(CpuPids(cpus), cpus[i].pid) >= 2
  {
    if i == 0 {
      CpuPidListed(cpus[1..], j - 1);
      TimesIn(CpuPids(cpus[1..]), cpus[0].pid);
    } else {
      SharedPidTwice(cpus[1..], i - 1, j - 1);
    }
    assert CpuPids(cpus) == (if cpus[0].running then [cpus[0].pid] else []) + CpuPids(cpus[1..]);
    TimesAppend(if cpus[0].running then [cpus[0].pid] else [], CpuPids(cpus[1..]), cpus[i].pid);
  }

  /** Running processes and executing CPUs correspond one to one. */
  lemma RunningMatchesCpus(s: State, pid: int)
    requires Reachable(s)
    ensures pid in s.running <==> exists i :: 0 <= i < |s.cpus| && s.cpus[i].running && s.cpus[i].pid == pid
    ensures forall i, j :: 0 <= i < j < |s.cpus| && s.cpus[i].running && s.cpus[j].running
              ==> s.cpus[i].pid != s.cpus[j].pid
  {
    hide Times, SemsOk, TokensOk, Reachable;
    ReachableInv(s);
    TimesIn(CpuPids(s.cpus), pid);
    TimesIn(s.running, pid);
    if pid in s.running {
      ListedHasCpu(s.cpus, pid);
    }
    forall i | 0 <= i < |s.cpus| && s.cpus[i].running
      ensures s.cpus[i].pid in CpuPids(s.cpus)
    {
      CpuPidListed(s.cpus, i);
    }
    forall i, j | 0 <= i < j < |s.cpus| && s.cpus[i].running && s.cpus[j].running
      ensures s.cpus[i].pid != s.cpus[j].pid
    {
      assert Places(s, s.cpus[i].pid) <= 1;
      if s.cpus[i].pid == s.cpus[j].pid {
        SharedPidTwice(s.cpus, i, j);
      }
    }
  }

  // ----- ANSISOP semaphores -----

  lemma {:induction false} QueuedHasSem(sems: seq<Semaphore>, pid: int)
    requires pid in SemPids(sems)
    ensures exists i :: 0 <= i < |sems| && pid in sems[i].pids
  {
    if pid !in sems[0].pids {
      QueuedHasSem(sems[1..], pid);
      var i :| 0 <= i < |sems[1..]| && pid in sems[1..][i].pids;
      assert pid in sems[i + 1].pids;
    }
  }

  lemma {:induction false} TwoQueues(sems: seq<Semaphore>, i: nat, j: nat, pid: int)
    requires i < j < |sems| && pid in sems[i].pids && pid in sems[j].pids
    ensures Times(SemPids(sems), pid) >= 2
  {
    TimesAppend(sems[0].pids, SemPids(sems[1..]), pid);
    if i == 0 {
      SemPidsHas(sems[1..], j - 1, pid);
      TimesIn(sems[j].pids, pid);
      TimesIn(sems[0].pids, pid);
    } else {
      TwoQueues(sems[1..], i - 1, j - 1, pid);
    }
  }

  /** A process is blocked iff some semaphore queues it; that semaphore is the only one and
      queues it once. */
  lemma BlockedMatchesSemaphores(s: State, pid: int)
    requires Reachable(s)
    ensures pid in s.blocked <==> exists i :: 0 <= i < |s.sems| && pid in s.sems[i].pids
    ensures forall i, j :: 0 <= i < j < |s.sems| ==> !(pid in s.sems[i].pids && pid in s.sems[j].pids)
    ensures forall i :: 0 <= i < |s.sems| ==> Times(s.sems[i].pids, pid) <= 1
  {
    hide Times, CpusOk, TokensOk, Reachable;
    ReachableInv(s);
    assert Places(s, pid) <= 1;
    TimesIn(SemPids(s.sems), pid);
    TimesIn(s.blocked, pid);
    if pid in s.blocked {
      QueuedHasSem(s.sems, pid);
    }
    forall i | 0 <= i < |s.sems|
      ensures pid in s.sems[i].pids ==> pid in s.blocked
      ensures Times(s.sems[i].pids, pid) <= 1
    {
      SemPidsHas(s.sems, i, pid);
      TimesIn(s.sems[i].pids, pid);
    }
    forall i, j | 0 <= i < j < |s.sems|
      ensures !(pid in s.sems[i].pids && pid in s.sems[j].pids)
    {
      if pid in s.sems[i].pids && pid in s.sems[j].pids {
        TwoQueues(s.sems, i, j, pid);
      }
    }
  }

  // ----- wake-ups -----

  /** No thread sleeps on work it could do: when the long-term thread cannot move, nobody
      waits to be admitted below the degree and nobody waits to be ended; when the
      dispatcher cannot move, nothing is ready or every CPU executes. The degree counter
      counts the admitted processes not yet ended and stays within the configuration. */
  lemma NoLostWakeUp(s: State)
    requires Reachable(s)
    ensures !Enabled(s, EvAdmit) ==> s.newcomers == [] || s.degree == s.limit
    ensures s.toAdmit >= |s.newcomers| || s.toAdmit >= s.limit - s.degree
    ensures !Enabled(s, EvEndSweep) ==> s.ending == []
    ensures (!Enabled(s, EvTakeCpu) && !Enabled(s, EvDispatch)) ==>
              (s.ready == [] || forall i :: 0 <= i < |s.cpus| ==> s.cpus[i].running)
    ensures s.degree == |s.ready| + |s.running| + |s.blocked| + |s.ending| <= s.limit
  {
    hide Partition, CpusOk, SemsOk, Reachable;
    ReachableInv(s);
    IdleExists(s.cpus);
  }

  /** The branch that puts the process back in colaListos is never taken: a dispatch always
      finds an idle CPU and starts the process that has been ready longest. */
  lemma DispatchStartsTheFirst(s: State)
    requires Reachable(s) && Enabled(s, EvDispatch)
    ensures IdleCpu(s.cpus) >= 0 && s.ready != []
    ensures Inv(s) && Step(s, EvDispatch).running == s.running + [s.ready[0]]
    ensures Step(s, EvDispatch).ready == s.ready[1..]
  {
    hide Partition, CpusOk, SemsOk, Reachable;
    ReachableInv(s);
    DispatchKeeps(s);
  }

  // ----- waiting lines -----

  /** A line in which processes wait their turn. */
  datatype Line = ForAdmission | ForCpu | ForSemaphore(id: string) | ForEnd

  function Waiting(s: State, line: Line): seq<int> {
    match line
    case ForAdmission => s.newcomers
    case ForCpu => s.ready
    case ForSemaphore(id) => if SemAt(s.sems, id) < 0 then [] else s.sems[SemAt(s.sems, id)].pids
    case ForEnd => s.ending
  }

  /** The processes of the line that a step serves. */
  function Taken(s: State, e: Event, line: Line): seq<int> {
    var q := Waiting(s, line);
    match line
    case ForAdmission => if e.EvAdmit? && s.degree < s.limit && q != [] then [q[0]] else []
    case ForCpu => if e.EvDispatch? && q != [] then [q[0]] else []
    case ForSemaphore(id) => if e.EvSignal? && e.id == id && q != [] then [q[0]] else []
    case ForEnd => if e.EvEndSweep? then Evens(q) else []
  }

  /** How many steps of a run serve the line. */
  ghost function Served(s: State, es: seq<Event>, line: Line): nat
    requires Inv(s) && Legal(s, es)
    decreases |es|
  {
    if es == [] then 0
    else
      StepInv(s, es[0]);
      (if Taken(s, es[0], line) != [] then 1 else 0) + Served(Step(s, es[0]), es[1..], line)
  }

  lemma FoundAt(sems: seq<Semaphore>, i: nat)
    requires i < |sems| && SemsBounded(sems)
    ensures SemAt(sems, sems[i].id) == i
  {
  }

  lemma NotFound(sems: seq<Semaphore>, id: string)
    requires forall i :: 0 <= i < |sems| ==> sems[i].id != id
    ensures SemAt(sems, id) < 0
  {
  }

  /** Taking one semaphore out and putting it back changed at the end leaves every other
      one as it was. */
  lemma MovedSem(sems: seq<Semaphore>, i: nat, m: Semaphore, id: string)
    requires i < |sems| && m.id == sems[i].id && SemsBounded(sems)
    requires |m.pids| <= Max0(-m.value)
    ensures var r := RemoveAt(sems, i) + [m];
      if id == m.id then SemAt(r, id) >= 0 && r[SemAt(r, id)] == m
      else (SemAt(r, id) >= 0 <==> SemAt(sems, id) >= 0)
           && (SemAt(r, id) >= 0 ==> r[SemAt(r, id)] == sems[SemAt(sems, id)])
  {
    hide SemAt;
    var r := RemoveAt(sems, i) + [m];
    SemMovedBounded(sems, i, m);
    if id == m.id {
      FoundAt(r, |r| - 1);
    } else if SemAt(sems, id) >= 0 {
      var j := SemAt(sems, id);
      FoundAt(r, if j < i then j else j - 1);
    } else {
      NotFound(r, id);
    }
  }

  lemma RemoveLater(q: seq<int>, pid: int)
    requires q != [] && q[0] != pid && pid in q[1..]
    ensures Remove(q, pid) == [q[0]] + Remove(q[1..], pid)
  {
  }

  lemma RemoveFirst(q: seq<int>, pid: int)
    requires q != [] && q[0] == pid
    ensures Remove(q, pid) == q[1..]
  {
  }

  /** verificarPidColaSemaforos takes out just the pid, when it is there once. */
  lemma {:induction false} DropOnce(q: seq<int>, pid: int)
    requires Times(q, pid) <= 1
    ensures DropSkipping(q, (y: int) => y == pid) == if pid in q then Remove(q, pid) else q
  {
    hide Remove;
    if q == [] {
    } else if q[0] != pid {
      DropOnce(q[1..], pid);
      assert q == [q[0]] + q[1..];
      if pid in q[1..] {
        RemoveLater(q, pid);
      }
    } else {
      RemoveFirst(q, pid);
      TimesIn(q[1..], pid);
      if |q| > 1 {
        assert q[1..] == [q[1]] + q[2..];
        NotThere(q[2..], pid);
      }
    }
  }

  lemma {:induction false} NotThere(q: seq<int>, pid: int)
    requires pid !in q
    ensures DropSkipping(q, (y: int) => y == pid) == q
  {
    if q != [] {
      NotThere(q[1..], pid);
    }
  }

  /** Killing a process outside listaEspera, colaEjecucion and colaListos. */
  predicate KillsBlocked(s: State, e: Event) {
    e.EvKill? && e.pid !in s.ending + s.running + s.ready
  }

  /** What a step makes of one semaphore. */
  function SemAfter(s: State, e: Event, m: Semaphore): Semaphore
    requires Inv(s) && Enabled(s, e)
  {
    if e.EvWait? && e.id == m.id then
      if m.value <= 0 then m.(value := m.value - 1, pids := m.pids + [PidOn(s, e.socket)])
      else m.(value := m.value - 1)
    else if e.EvSignal? && e.id == m.id then
      m.(value := m.value + 1, pids := if m.pids == [] then [] else m.pids[1..])
    else if KillsBlocked(s, e) then WithoutPid(m, e.pid)
    else m
  }

  /** Semaphores rotate through the list, but each reacts only to its own operations and to
      the end of a process it queues. */
  lemma SemStep(s: State, e: Event, id: string)
    requires Inv(s) && Enabled(s, e)
    ensures var i, t := SemAt(s.sems, id), Step(s, e);
      && (SemAt(t.sems, id) >= 0 <==> i >= 0)
      && (i >= 0 ==> t.sems[SemAt(t.sems, id)] == SemAfter(s, e, s.sems[i]))
  {
    hide Inv, SemAt, Step, SemAfter;
    if e.EvWait? {
      WaitStep(s, e, id);
    } else if e.EvSignal? {
      SignalStep(s, e, id);
    } else if KillsBlocked(s, e) {
      ForgetStep(s, e, id);
    } else {
      OtherSteps(s, e);
      OtherSems(s, e, id);
    }
  }

  lemma WaitStep(s: State, e: Event, id: string)
    requires Inv(s) && Enabled(s, e) && e.EvWait?
    ensures var i, t := SemAt(s.sems, id), Step(s, e);
      && (SemAt(t.sems, id) >= 0 <==> i >= 0)
      && (i >= 0 ==> t.sems[SemAt(t.sems, id)] == SemAfter(s, e, s.sems[i]))
  {
    hide Times, SemPids, CpusOk, TokensOk, LeaveCpu, OnCpu, SemAt, Partition, RemoveAt;
    var i := SemAt(s.sems, e.id);
    LeaveCpuIs(s, e.socket);
    MovedSem(s.sems, i, SemAfter(s, e, s.sems[i]), id);
  }

  lemma SignalStep(s: State, e: Event, id: string)
    requires Inv(s) && Enabled(s, e) && e.EvSignal?
    ensures var i, t := SemAt(s.sems, id), Step(s, e);
      && (SemAt(t.sems, id) >= 0 <==> i >= 0)
      && (i >= 0 ==> t.sems[SemAt(t.sems, id)] == SemAfter(s, e, s.sems[i]))
  {
    hide Times, SemPids, CpusOk, TokensOk, OnCpu, SemAt, Partition, RemoveAt, Remove;
    EnabledMeans(s, e);
    var i := SemAt(s.sems, e.id);
    MovedSem(s.sems, i, SemAfter(s, e, s.sems[i]), id);
  }

  lemma ForgetStep(s: State, e: Event, id: string)
    requires Inv(s) && Enabled(s, e) && KillsBlocked(s, e)
    ensures var i, t := SemAt(s.sems, id), Step(s, e);
      && (SemAt(t.sems, id) >= 0 <==> i >= 0)
      && (i >= 0 ==> t.sems[SemAt(t.sems, id)] == SemAfter(s, e, s.sems[i]))
  {
    hide Inv, SemAt, Remove, Forget;
    ForgetAt(s, e.pid, id);
  }

  lemma OtherSems(s: State, e: Event, id: string)
    requires Inv(s) && Enabled(s, e) && !e.EvWait? && !e.EvSignal? && !KillsBlocked(s, e)
    ensures forall m: Semaphore :: SemAfter(s, e, m) == m
  {
  }

  lemma OtherSteps(s: State, e: Event)
    requires Inv(s) && Enabled(s, e) && !e.EvWait? && !e.EvSignal? && !KillsBlocked(s, e)
    ensures Step(s, e).sems == s.sems
  {
    hide Inv;
    if e.EvEndSweep? {
      EndAllIs(s.(toEnd := s.toEnd - 1, ending := Odds(s.ending)), Evens(s.ending));
    }
  }

  function WithoutPid(m: Semaphore, pid: int): Semaphore {
    if pid in m.pids then m.(pids := Remove(m.pids, pid)) else m
  }

  lemma ForgetAt(s: State, pid: int, id: string)
    requires Inv(s)
    ensures var i, r := SemAt(s.sems, id), Forget(s.sems, pid);
      && (SemAt(r, id) >= 0 <==> i >= 0)
      && (i >= 0 ==> r[SemAt(r, id)] == WithoutPid(s.sems[i], pid))
  {
    hide Times, SemPids, CpusOk, TokensOk, SemAt, Remove;
    assert Places(s, pid) <= 1;
    ForgetBounded(s.sems, pid);
    var i, r := SemAt(s.sems, id), Forget(s.sems, pid);
    if i >= 0 {
      FoundAt(r, i);
      SemPidsHas(s.sems, i, pid);
      DropOnce(s.sems[i].pids, pid);
    } else {
      NotFound(r, id);
    }
  }

  lemma RemoveShift(q: seq<int>, x: int, k: nat)
    requires k < |q| && x in q && q[k] != x
    ensures var r := Remove(q, x); (k < |r| && r[k] == q[k]) || (k > 0 && r[k - 1] == q[k])
  {
  }

  /** Being served: admitted, put on a CPU, woken or ended. */
  lemma ServedMeans(s: State, e: Event, line: Line, pid: int)
    requires Inv(s) && Enabled(s, e) && pid in Taken(s, e, line)
    ensures var t := Step(s, e);
      match line
      case ForAdmission => pid in t.ready
      case ForCpu => pid in t.running
      case ForSemaphore(_) => pid in t.ready
      case ForEnd => pid in t.ended
  {
    hide Times, SemPids, CpuPids, IdleCount, Partition, Remove;
    if e.EvDispatch? {
      IdleExists(s.cpus);
    } else if e.EvEndSweep? {
      EndAllIs(s.(toEnd := s.toEnd - 1, ending := Odds(s.ending)), Evens(s.ending));
    }
  }

  /** A step brings nobody back in a line: whoever waits at position k is served, or stays
      at k or nearer the front, and strictly nearer when others of the line are served. */
  lemma LineStep(s: State, e: Event, line: Line, k: nat) returns (j: nat)
    requires Inv(s) && Enabled(s, e) && k < |Waiting(s, line)|
    requires e != EvKill(Waiting(s, line)[k])
    ensures var pid, r, taken := Waiting(s, line)[k], Waiting(Step(s, e), line), Taken(s, e, line);
      pid in taken || (j <= k && (taken != [] ==> j < k) && j < |r| && r[j] == pid)
  {
    hide Times, SemPids, CpusOk, SemsOk, Partition, LeaveCpu, OnCpu, Remove, Step;
    var q, taken := Waiting(s, line), Taken(s, e, line);
    if e.EvKill? && e.pid in q {
      RemoveShift(q, e.pid, k);
    }
    match line {
      case ForSemaphore(id) => SemStep(s, e, id);
      case ForEnd => EndingStep(s, e);
      case ForAdmission => NewcomersStep(s, e);
      case ForCpu => ReadyStep(s, e);
    }
    var r := Waiting(Step(s, e), line);
    if line.ForEnd? && e.EvEndSweep? {
      SweptLine(q, k);
      j := k / 2;
    } else if taken != [] {
      assert taken == [q[0]] && r == q[1..];
      j := if k > 0 then k - 1 else 0;
    } else {
      j := if k < |r| && r[k] == q[k] then k else k - 1;
    }
  }

  /** The sweep ends whoever is at an even position, and halves the position of the rest. */
  lemma SweptLine(q: seq<int>, k: nat)
    requires k < |q|
    ensures q[k] in Evens(q) || (k / 2 < k && k / 2 < |Odds(q)| && Odds(q)[k / 2] == q[k])
  {
    EvensAt(q, k / 2);
    assert k % 2 == 0 ==> Evens(q)[k / 2] == q[k];
  }

  /** What a step makes of listaEspera. */
  lemma EndingStep(s: State, e: Event)
    requires Inv(s) && Enabled(s, e)
    ensures var r := Step(s, e).ending;
      if e.EvEndSweep? then r == Odds(s.ending)
      else if e.EvKill? && e.pid in s.ending then r == Remove(s.ending, e.pid)
      else s.ending <= r
  {
    hide Times, SemPids, CpuPids, IdleCount, LeaveCpu, OnCpu, Partition, Remove;
    if e.EvEndSweep? {
      EndAllIs(s.(toEnd := s.toEnd - 1, ending := Odds(s.ending)), Evens(s.ending));
    } else if e.EvQuantumEnd? || e.EvTakeOff? || e.EvExpropriated? || e.EvWait? {
      LeaveCpuIs(s, e.socket);
    }
  }

  /** What a step makes of colaNuevos. */
  lemma NewcomersStep(s: State, e: Event)
    requires Inv(s) && Enabled(s, e)
    ensures var r := Step(s, e).newcomers;
      if Taken(s, e, ForAdmission) != [] then r == s.newcomers[1..] else s.newcomers <= r
  {
    hide Times, SemPids, CpuPids, IdleCount, LeaveCpu, OnCpu, Partition, Remove;
    if e.EvEndSweep? {
      EndAllIs(s.(toEnd := s.toEnd - 1, ending := Odds(s.ending)), Evens(s.ending));
    } else if e.EvQuantumEnd? || e.EvTakeOff? || e.EvExpropriated? || e.EvWait? {
      LeaveCpuIs(s, e.socket);
    }
  }

  /** What a step makes of colaListos. */
  lemma ReadyStep(s: State, e: Event)
    requires Inv(s) && Enabled(s, e)
    ensures var r := Step(s, e).ready;
      if e.EvDispatch? then s.ready != [] && r == s.ready[1..]
      else if e.EvKill? && e.pid in s.ready && e.pid !in s.ending + s.running then r == Remove(s.ready, e.pid)
      else s.ready <= r
  {
    hide Times, SemPids, CpuPids, IdleCount, LeaveCpu, OnCpu, Partition;
    if e.EvEndSweep? {
      EndAllIs(s.(toEnd := s.toEnd - 1, ending := Odds(s.ending)), Evens(s.ending));
    } else if e.EvDispatch? {
      IdleExists(s.cpus);
    } else if e.EvQuantumEnd? || e.EvTakeOff? || e.EvExpropriated? || e.EvWait? {
      LeaveCpuIs(s, e.socket);
    }
  }

  lemma {:induction false} RunSplits(s: State, es: seq<Event>, n: nat)
    requires Inv(s) && Legal(s, es) && n <= |es|
    ensures Legal(s, es[..n])
    ensures Legal(After(s, es[..n]), es[n..])
    ensures After(After(s, es[..n]), es[n..]) == After(s, es)
    decreases |es|
  {
    if n == 0 {
      assert es[0..] == es;
    } else {
      StepInv(s, es[0]);
      RunSplits(Step(s, es[0]), es[1..], n - 1);
      assert es[..n][1..] == es[1..][..n - 1];
      assert es[1..][n - 1..] == es[n..];
    }
  }

  /** A run and one step more. */
  lemma {:induction false} OneStepMore(s: State, es: seq<Event>, e: Event)
    requires Inv(s) && Legal(s, es) && Enabled(After(s, es), e)
    ensures Legal(s, es + [e]) && After(s, es + [e]) == Step(After(s, es), e)
    decreases |es|
  {
    hide Inv, Step, Enabled;
    if es == [] {
      StepInv(s, e);
      assert [e][1..] == [] && es + [e] == [e];
    } else {
      StepInv(s, es[0]);
      OneStepMore(Step(s, es[0]), es[1..], e);
      assert (es + [e])[1..] == es[1..] + [e];
    }
  }

  /** The n-th step of a run serves this process. */
  ghost predicate ServedAt(s: State, es: seq<Event>, n: nat, line: Line, pid: int)
    requires Inv(s) && Legal(s, es) && n < |es|
  {
    RunSplits(s, es, n);
    pid in Taken(After(s, es[..n]), es[n], line)
  }

  /** Bounded bypass: whoever waits at position k of a line is served before the line has
      been served k + 1 times, unless it is killed. So for admission, for a CPU, for the
      signal of a semaphore and, the sweep notwithstanding, for being ended. */
  lemma {:induction false} ServedInTurn(s: State, es: seq<Event>, line: Line, k: nat) returns (n: nat)
    requires Inv(s) && Legal(s, es) && k < |Waiting(s, line)|
    requires EvKill(Waiting(s, line)[k]) !in es
    requires Served(s, es, line) > k
    ensures n < |es| && ServedAt(s, es, n, line, Waiting(s, line)[k])
    ensures Legal(s, es[..n]) && Served(s, es[..n], line) <= k
    decreases |es|
  {
    hide Inv, Step, Waiting, Taken;
    var e := es[0];
    if Waiting(s, line)[k] in Taken(s, e, line) {
      n := 0;
    } else {
      assert e in es;
      var j := LineStep(s, e, line, k);
      StepInv(s, e);
      var m := ServedInTurn(Step(s, e), es[1..], line, j);
      n := m + 1;
      assert es[..n][1..] == es[1..][..m];
    }
  }

  // ----- killing a running process -----

  /** Killing a process on a CPU only leaves word for it; the word stays until the CPU
      hands that process over to be ended. */
  lemma {:induction false} KillReachesItsProcess(s: State, es: seq<Event>, pid: int)
    requires Inv(s) && Legal(s, es) && pid in s.interrupted
    ensures pid in After(s, es).interrupted || (exists n :: 0 <= n < |es| && HandsOver(s, es, n, pid))
    decreases |es|
  {
    hide Inv, Step, PidOn, OnCpu;
    if es != [] {
      StepInv(s, es[0]);
      InterruptedStep(s, es[0], pid);
      if es[0].EvExpropriated? && PidOn(s, es[0].socket) == pid {
        assert HandsOver(s, es, 0, pid);
      } else {
        var t := Step(s, es[0]);
        KillReachesItsProcess(t, es[1..], pid);
        if pid !in After(s, es).interrupted {
          var m :| 0 <= m < |es[1..]| && HandsOver(t, es[1..], m, pid);
          assert es[..m + 1][1..] == es[1..][..m];
          assert HandsOver(s, es, m + 1, pid);
        }
      }
    }
  }

  ghost predicate HandsOver(s: State, es: seq<Event>, n: nat, pid: int)
    requires Inv(s) && Legal(s, es) && n < |es|
  {
    RunSplits(s, es, n);
    es[n].EvExpropriated? && PidOn(After(s, es[..n]), es[n].socket) == pid
  }

  lemma InterruptedStep(s: State, e: Event, pid: int)
    requires Inv(s) && Enabled(s, e) && pid in s.interrupted
    ensures pid in Step(s, e).interrupted || (e.EvExpropriated? && PidOn(s, e.socket) == pid)
    ensures e.EvExpropriated? ==> PidOn(s, e.socket) in Step(s, e).ending
  {
    hide Times, SemPids, CpuPids, IdleCount, LeaveCpu, OnCpu, Partition, Remove;
    if e.EvEndSweep? {
      EndAllIs(s.(toEnd := s.toEnd - 1, ending := Odds(s.ending)), Evens(s.ending));
    } else if e.EvQuantumEnd? || e.EvTakeOff? || e.EvExpropriated? || e.EvWait? {
      LeaveCpuIs(s, e.socket);
      if e.EvExpropriated? && PidOn(s, e.socket) != pid {
        var k := IndexOf(s.interrupted, pid);
        RemoveShift(s.interrupted, PidOn(s, e.socket), k);
      }
    }
  }

  // ----- ANSISOP semaphore values -----

  function Value(s: State, id: string): int
    requires SemAt(s.sems, id) >= 0
  {
    s.sems[SemAt(s.sems, id)].value
  }

  function Waits(es: seq<Event>, id: string): nat {
    if es == [] then 0 else (if es[0].EvWait? && es[0].id == id then 1 else 0) + Waits(es[1..], id)
  }

  function Signals(es: seq<Event>, id: string): nat {
    if es == [] then 0 else (if es[0].EvSignal? && es[0].id == id then 1 else 0) + Signals(es[1..], id)
  }

  /** Over any run a semaphore's value moves by its signals minus its waits. */
  lemma {:induction false} ValueCounts(s: State, es: seq<Event>, id: string)
    requires Inv(s) && Legal(s, es) && SemAt(s.sems, id) >= 0
    ensures SemAt(After(s, es).sems, id) >= 0
    ensures Value(After(s, es), id) == Value(s, id) - Waits(es, id) + Signals(es, id)
    decreases |es|
  {
    hide Inv, Step, SemAt;
    if es != [] {
      StepInv(s, es[0]);
      SemStep(s, es[0], id);
      ValueCounts(Step(s, es[0]), es[1..], id);
    }
  }

  /** The queue holds just the waits that found the value used up. */
  ghost predicate QueueIsDebt(m: Semaphore) {
    |m.pids| == Max0(-m.value)
  }

  /** One step keeps a semaphore's queue equal to its debt, unless it kills a process
      queued there; then it never does. */
  lemma DebtStep(s: State, e: Event, id: string)
    requires Inv(s) && Enabled(s, e) && SemAt(s.sems, id) >= 0
    requires QueueIsDebt(s.sems[SemAt(s.sems, id)])
    ensures SemAt(Step(s, e).sems, id) >= 0
    ensures QueueIsDebt(Step(s, e).sems[SemAt(Step(s, e).sems, id)])
       <==> !(KillsBlocked(s, e) && e.pid in Waiting(s, ForSemaphore(id)))
  {
    hide Inv, Step, SemAt, Remove;
    SemStep(s, e, id);
  }

  /** In every state of a run, the queue of the semaphore holds exactly max(0, -value)
      processes. */
  ghost predicate AlwaysDebt(s: State, es: seq<Event>, id: string)
    requires Inv(s) && Legal(s, es) && SemAt(s.sems, id) >= 0
    decreases |es|
  {
    && QueueIsDebt(s.sems[SemAt(s.sems, id)])
    && (es == [] || (StepInv(s, es[0]); SemStep(s, es[0], id); AlwaysDebt(Step(s, es[0]), es[1..], id)))
  }

  /** No step of a run kills a process queued in the semaphore. */
  ghost predicate SparesQueue(s: State, es: seq<Event>, id: string)
    requires Inv(s) && Legal(s, es)
    decreases |es|
  {
    es == [] ||
    (!(KillsBlocked(s, es[0]) && es[0].pid in Waiting(s, ForSemaphore(id)))
     && (StepInv(s, es[0]); SparesQueue(Step(s, es[0]), es[1..], id)))
  }

  /** The queue holds exactly max(0, -value) processes all along a run iff it does at the
      start and no step kills a process queued in this semaphore. */
  lemma {:induction false} DebtOverRuns(s: State, es: seq<Event>, id: string)
    requires Inv(s) && Legal(s, es) && SemAt(s.sems, id) >= 0
    ensures AlwaysDebt(s, es, id) <==> QueueIsDebt(s.sems[SemAt(s.sems, id)]) && SparesQueue(s, es, id)
    decreases |es|
  {
    hide Inv, Step, SemAt, QueueIsDebt, KillsBlocked, Waiting;
    if es != [] && QueueIsDebt(s.sems[SemAt(s.sems, id)]) {
      StepInv(s, es[0]);
      SemStep(s, es[0], id);
      DebtStep(s, es[0], id);
      DebtOverRuns(Step(s, es[0]), es[1..], id);
    }
  }

  /** At the start it does iff the configured value is not negative. */
  lemma DebtAtStart(s: State, id: string)
    requires Initial(s) && SemAt(s.sems, id) >= 0
    ensures QueueIsDebt(s.sems[SemAt(s.sems, id)]) <==> Value(s, id) >= 0
  {
  }

  /** On every run, kills included, no queue is longer than that. */
  lemma QueueWithinDebt(s: State, i: nat)
    requires Reachable(s) && i < |s.sems|
    ensures |s.sems[i].pids| <= Max0(-s.sems[i].value)
  {
    hide Reachable, Partition, CpusOk, TokensOk;
    ReachableInv(s);
  }
}
