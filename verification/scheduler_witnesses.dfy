/** A run on which killing a blocked process loses the unit it waited for. */
module SchedulerWitnesses {
  import opened Lists
  import opened Scheduler
  import opened SchedulerTheorems
  import opened SchedulerRuns

  /** Two processes at most, and one semaphore with no unit in it. */
  const BOOT := State(0, [], [], [], [], [], [], [], [Semaphore("m", 0, [])], [], 0, 2, 0, 0, 0, 0, false)

  /** A run from BOOT that ends in s, and one step more that ends in t. */
  lemma Extend(es: seq<Event>, s: State, e: Event, t: State) returns (fs: seq<Event>)
    requires Inv(BOOT) && Legal(BOOT, es) && After(BOOT, es) == s
    requires Enabled(s, e) && Step(s, e) == t
    ensures Legal(BOOT, fs) && After(BOOT, fs) == t && fs == es + [e]
  {
    hide Inv, Step, Enabled;
    OneStepMore(BOOT, es, e);
    fs := es + [e];
  }

  lemma NoSteps(s: State)
    requires Inv(s)
    ensures Legal(s, []) && After(s, []) == s
  {
  }

  // ----- steps with one CPU and one semaphore -----

  ghost predicate Leads(s: State, e: Event, t: State) {
    Enabled(s, e) && (Inv(s) ==> Step(s, e) == t)
  }

  lemma Go(es: seq<Event>, s: State, e: Event, t: State) returns (fs: seq<Event>)
    requires Inv(BOOT) && Legal(BOOT, es) && After(BOOT, es) == s
    requires Leads(s, e, t)
    ensures Legal(BOOT, fs) && After(BOOT, fs) == t && fs == es + [e]
  {
    hide Inv, Step, Enabled;
    fs := Extend(es, s, e, t);
  }

  lemma Arrives(s: State)
    ensures Leads(s, EvNewProgram, s.(lastPid := s.lastPid + 1, newcomers := s.newcomers + [s.lastPid + 1],
                                      toAdmit := s.toAdmit + 1))
  {
  }

  lemma Admits(s: State, pid: int, q: seq<int>)
    requires s.newcomers == [pid] + q && s.degree < s.limit && s.toAdmit > 0
    ensures Leads(s, EvAdmit, s.(newcomers := q, ready := s.ready + [pid], degree := s.degree + 1,
                                 toAdmit := s.toAdmit - 1, toDispatch := s.toDispatch + 1))
  {
  }

  lemma Connects(s: State)
    requires s.cpus == []
    ensures Leads(s, EvNewCpu(7, 0), s.(cpus := [Cpu(7, false, 0)], freeCpus := s.freeCpus + 1))
  {
    assert [] + [Cpu(7, false, 0)] == [Cpu(7, false, 0)];
  }

  lemma Takes(s: State)
    requires s.freeCpus > 0 && !s.holding
    ensures Leads(s, EvTakeCpu, s.(freeCpus := s.freeCpus - 1, holding := true))
  {
  }

  lemma Dispatches(s: State, pid: int, q: seq<int>, was: int)
    requires s.ready == [pid] + q && s.running == [] && s.cpus == [Cpu(7, false, was)]
    requires s.holding && s.toDispatch > 0
    ensures Leads(s, EvDispatch, s.(ready := q, running := [pid], cpus := [Cpu(7, true, pid)],
                                    toDispatch := s.toDispatch - 1, holding := false))
  {
    assert IdleCpu(s.cpus) == 0 && RemoveAt(s.cpus, 0) == [];
    assert [] + [Cpu(7, true, pid)] == [Cpu(7, true, pid)] && [] + [pid] == [pid];
  }

  lemma WaitBlocks(s: State, pid: int, v: int)
    requires s.running == [pid] && s.cpus == [Cpu(7, true, pid)] && s.blocked == []
    requires s.sems == [Semaphore("m", v, [])] && v <= 0
    ensures Leads(s, EvWait(7, "m"), s.(running := [], blocked := [pid], cpus := [Cpu(7, false, pid)],
                                        freeCpus := s.freeCpus + 1, sems := [Semaphore("m", v - 1, [pid])]))
  {
    assert CpuAt(s.cpus, 7) == 0 && SemAt(s.sems, "m") == 0;
    assert Remove(s.running, pid) == [] && RemoveAt(s.sems, 0) == [] && RemoveAt(s.cpus, 0) == [];
    assert [] + [pid] == [pid];
    assert SetIdle(s.cpus, 7) == [Cpu(7, false, pid)];
    assert [] + [Semaphore("m", v - 1, [pid])] == [Semaphore("m", v - 1, [pid])];
  }

  lemma SignalWakesNobody(s: State, pid: int, v: int)
    requires s.running == [pid] && s.cpus == [Cpu(7, true, pid)]
    requires s.sems == [Semaphore("m", v, [])]
    ensures Leads(s, EvSignal(7, "m"), s.(sems := [Semaphore("m", v + 1, [])]))
  {
    assert CpuAt(s.cpus, 7) == 0 && SemAt(s.sems, "m") == 0 && RemoveAt(s.sems, 0) == [];
    assert [] + [Semaphore("m", v + 1, [])] == [Semaphore("m", v + 1, [])];
  }

  lemma KillsWaiter(s: State, pid: int, v: int)
    requires s.blocked == [pid] && pid !in s.ending + s.running + s.ready
    requires s.sems == [Semaphore("m", v, [pid])]
    ensures Leads(s, EvKill(pid), s.(blocked := [], ended := s.ended + [pid], degree := s.degree - 1,
                                     toAdmit := s.toAdmit + 1, sems := [Semaphore("m", v, [])]))
  {
    assert Remove(s.blocked, pid) == [];
    assert DropSkipping([pid], (x: int) => x == pid) == [];
    assert Forget(s.sems, pid) == [Semaphore("m", v, [])];
  }

  // ----- the run -----

  /** Two programs arrive and are admitted, and a CPU connects. */
  lemma TwoReady() returns (es: seq<Event>)
    ensures Initial(BOOT) && Inv(BOOT) && Legal(BOOT, es)
    ensures After(BOOT, es)
         == State(2, [], [1, 2], [], [], [], [], [Cpu(7, false, 0)], [Semaphore("m", 0, [])], [],
                  2, 2, 0, 0, 2, 1, false)
  {
    InitialInv(BOOT);
    NoSteps(BOOT);
    hide Inv, Legal, After, Leads;
    var s1 := BOOT.(lastPid := 1, newcomers := [1], toAdmit := 1);
    var s2 := BOOT.(lastPid := 2, newcomers := [1, 2], toAdmit := 2);
    var s3 := BOOT.(lastPid := 2, newcomers := [2], ready := [1], degree := 1, toAdmit := 1, toDispatch := 1);
    var s4 := BOOT.(lastPid := 2, ready := [1, 2], degree := 2, toDispatch := 2);
    Arrives(BOOT); Arrives(s1); Admits(s2, 1, [2]); Admits(s3, 2, []); Connects(s4);
    es := Go([], BOOT, EvNewProgram, s1);
    es := Go(es, s1, EvNewProgram, s2);
    es := Go(es, s2, EvAdmit, s3);
    es := Go(es, s3, EvAdmit, s4);
    es := Go(es, s4, EvNewCpu(7, 0), s4.(cpus := [Cpu(7, false, 0)], freeCpus := 1));
  }

  /** The first process waits and blocks; the second one is put on the CPU. */
  lemma FirstBlocks() returns (es: seq<Event>)
    ensures Initial(BOOT) && Inv(BOOT) && Legal(BOOT, es)
    ensures After(BOOT, es)
         == State(2, [], [], [2], [1], [], [], [Cpu(7, true, 2)], [Semaphore("m", -1, [1])], [],
                  2, 2, 0, 0, 0, 0, false)
  {
    hide Inv, Legal, After, Leads;
    es := TwoReady();
    var s := After(BOOT, es);
    var s1 := s.(freeCpus := 0, holding := true);
    Takes(s);
    es := Go(es, s, EvTakeCpu, s1);
    Dispatches(s1, 1, [2], 0);
    var s2 := s1.(ready := [2], running := [1], cpus := [Cpu(7, true, 1)], toDispatch := 1, holding := false);
    es := Go(es, s1, EvDispatch, s2);
    WaitBlocks(s2, 1, 0);
    var s3 := s2.(running := [], blocked := [1], cpus := [Cpu(7, false, 1)], freeCpus := 1,
                  sems := [Semaphore("m", -1, [1])]);
    es := Go(es, s2, EvWait(7, "m"), s3);
    var s4 := s3.(freeCpus := 0, holding := true);
    Takes(s3);
    es := Go(es, s3, EvTakeCpu, s4);
    Dispatches(s4, 2, [], 1);
    es := Go(es, s4, EvDispatch, s4.(ready := [], running := [2], cpus := [Cpu(7, true, 2)],
                                     toDispatch := 0, holding := false));
  }

  /** The blocked process is killed: its semaphore owes one wake-up and nobody waits for it.
      The next signal pays that debt and wakes nobody, so the process that signalled and
      then waits blocks, with no process left to wake it. */
  lemma KilledWaiter() returns (es: seq<Event>)
    ensures Initial(BOOT) && Inv(BOOT) && Legal(BOOT, es)
    ensures After(BOOT, es).sems == [Semaphore("m", -1, [])]
    ensures !QueueIsDebt(After(BOOT, es).sems[0])
    ensures Legal(BOOT, es + [EvSignal(7, "m")]) && Legal(BOOT, es + [EvSignal(7, "m"), EvWait(7, "m")])
    ensures After(BOOT, es + [EvSignal(7, "m")]).sems == [Semaphore("m", 0, [])]
    ensures After(BOOT, es + [EvSignal(7, "m")]).ready == []
    ensures var t := After(BOOT, es + [EvSignal(7, "m"), EvWait(7, "m")]);
      t.blocked == [2] && t.ended == [1] && t.ready == t.running == t.newcomers == t.ending == []
  {
    hide Inv, Legal, After, Leads;
    es := FirstBlocks();
    var s := After(BOOT, es);
    KillsWaiter(s, 1, -1);
    var s1 := s.(blocked := [], ended := [1], degree := 1, toAdmit := 1, sems := [Semaphore("m", -1, [])]);
    assert [] + [1] == [1];
    es := Go(es, s, EvKill(1), s1);
    SignalWakesNobody(s1, 2, -1);
    var s2 := s1.(sems := [Semaphore("m", 0, [])]);
    var fs := Go(es, s1, EvSignal(7, "m"), s2);
    WaitBlocks(s2, 2, 0);
    var gs := Go(fs, s2, EvWait(7, "m"),
                 s2.(running := [], blocked := [2], cpus := [Cpu(7, false, 2)], freeCpus := 1,
                     sems := [Semaphore("m", -1, [2])]));
    assert es + [EvSignal(7, "m")] + [EvWait(7, "m")] == es + [EvSignal(7, "m"), EvWait(7, "m")];
  }
}
