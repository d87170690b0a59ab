/** What becomes of a process that is killed: ended by the word left for it, or otherwise,
    with the word left behind. */
module SchedulerKills {
  import opened Lists
  import opened Scheduler
  import opened SchedulerTheorems
  import opened SchedulerRuns

  /** Admitted, and neither ended nor waiting to be. */
  predicate Alive(s: State, pid: int) {
    pid in s.running || pid in s.ready || pid in s.blocked
  }

  predicate Over(s: State, pid: int) {
    pid in s.ending || pid in s.ended
  }

  /** How a process comes to its end: handed over on the word of listaProcesosInterrumpidos,
      finished or refused on its CPU, or killed where it waited. */
  datatype Fate = GoesOn | EndedByWord | EndedItself | EndedAtOnce

  function StepFate(s: State, e: Event, pid: int): Fate
    requires Enabled(s, e)
  {
    if e.EvExpropriated? && PidOn(s, e.socket) == pid then EndedByWord
    else if e.EvTakeOff? && PidOn(s, e.socket) == pid then EndedItself
    else if e == EvKill(pid) && pid !in s.running then EndedAtOnce
    else GoesOn
  }

  /** A kill that only leaves word. */
  predicate LeavesWord(s: State, e: Event, pid: int) {
    e == EvKill(pid) && pid in s.running && pid !in s.ending
  }

  // ----- one step -----

  function LiveTimes(s: State, pid: int): nat {
    Times(s.running, pid) + Times(s.ready, pid) + Times(s.blocked, pid)
  }

  /** In a valid state a pid takes one place at most, so one count tells where it is. */
  lemma WhereItIs(s: State, pid: int)
    requires Inv(s)
    ensures LiveTimes(s, pid) <= 1 && (Alive(s, pid) <==> LiveTimes(s, pid) == 1)
    ensures Over(s, pid) <==> Times(s.ending, pid) + Times(s.ended, pid) == 1
    ensures !(Alive(s, pid) && Over(s, pid))
    ensures pid in s.running ==> pid !in s.ready && pid !in s.blocked && pid !in s.ending
  {
    hide Times, CpusOk, SemsOk, TokensOk;
    assert Places(s, pid) <= 1;
    TimesIn(s.running, pid); TimesIn(s.ready, pid); TimesIn(s.blocked, pid);
    TimesIn(s.ending, pid); TimesIn(s.ended, pid);
  }

  /** What a step does to the places and the words of a process that was admitted. */
  ghost predicate Moves(s: State, t: State, e: Event, pid: int)
    requires Enabled(s, e)
  {
    && LiveTimes(t, pid) + (if StepFate(s, e, pid) != GoesOn then 1 else 0) >= LiveTimes(s, pid)
    && (StepFate(s, e, pid) != GoesOn ==> Over(t, pid))
    && Times(t.interrupted, pid) + (if StepFate(s, e, pid) == EndedByWord then 1 else 0)
       == Times(s.interrupted, pid) + (if LeavesWord(s, e, pid) then 1 else 0)
  }

  /** Steps that take no process off a CPU and kill none. */
  lemma OtherMoves(s: State, e: Event, pid: int)
    requires Inv(s) && Enabled(s, e) && Alive(s, pid)
    requires !e.EvKill? && !e.EvQuantumEnd? && !e.EvTakeOff? && !e.EvExpropriated? && !e.EvWait?
    ensures Moves(s, Step(s, e), e, pid)
  {
    hide Times, CpuPids, SemPids, IdleCount, Partition, RemoveAt, Remove;
    match e {
      case EvAdmit =>
        if s.newcomers != [] {
          PutTimes(s.ready, s.newcomers[0], pid);
        }
      case EvEndSweep =>
        EndAllIs(s.(toEnd := s.toEnd - 1, ending := Odds(s.ending)), Evens(s.ending));
      case EvDispatch =>
        IdleExists(s.cpus);
        HeadTimes(s.ready, pid);
        PutTimes(s.running, s.ready[0], pid);
      case EvSignal(_, id) =>
        EnabledMeans(s, e);
        var q := s.sems[SemAt(s.sems, id)].pids;
        if q != [] {
          RemoveTimes(s.blocked, q[0], pid);
          PutTimes(s.ready, q[0], pid);
        }
      case _ =>
    }
  }

  /** Steps that take a process off its CPU. */
  lemma CpuMoves(s: State, e: Event, pid: int)
    requires Inv(s) && Enabled(s, e) && Alive(s, pid)
    requires e.EvQuantumEnd? || e.EvTakeOff? || e.EvExpropriated? || e.EvWait?
    ensures Moves(s, Step(s, e), e, pid)
  {
    hide Times, CpuPids, SemPids, IdleCount, Partition, LeaveCpu, OnCpu, RemoveAt, Remove;
    var q := PidOn(s, e.socket);
    LeaveCpuKeeps(s, e.socket);
    LeaveCpuIs(s, e.socket);
    PutTimes(s.ready, q, pid);
    PutTimes(s.blocked, q, pid);
    if e.EvExpropriated? {
      RemoveTimes(s.interrupted, q, pid);
    }
  }

  lemma KillMoves(s: State, e: Event, pid: int)
    requires Inv(s) && Enabled(s, e) && e.EvKill? && Alive(s, pid)
    ensures Moves(s, Step(s, e), e, pid)
  {
    hide Times, CpuPids, SemPids, IdleCount, Partition, Remove, Forget;
    EnabledMeans(s, e);
    WhereItIs(s, pid);
    WhereItIs(s, e.pid);
    PutTimes(s.interrupted, e.pid, pid);
    if e.pid in s.ready {
      RemoveTimes(s.ready, e.pid, pid);
    }
    if e.pid in s.blocked {
      RemoveTimes(s.blocked, e.pid, pid);
    }
  }

  /** A step ends a process that was admitted iff it hands it over on its word, takes it off
      its CPU for good, or kills it where it waits; a word comes only with a kill on its CPU,
      and goes only when it is used. */
  lemma FateStep(s: State, e: Event, pid: int)
    requires Inv(s) && Enabled(s, e) && Alive(s, pid)
    ensures Alive(Step(s, e), pid) <==> StepFate(s, e, pid) == GoesOn
    ensures Over(Step(s, e), pid) <==> StepFate(s, e, pid) != GoesOn
    ensures Times(Step(s, e).interrupted, pid) + (if StepFate(s, e, pid) == EndedByWord then 1 else 0)
         == Times(s.interrupted, pid) + (if LeavesWord(s, e, pid) then 1 else 0)
  {
    hide Times, Step, Inv, Alive, Over, Enabled, LeavesWord, StepFate, LiveTimes;
    if e.EvKill? {
      KillMoves(s, e, pid);
    } else if e.EvQuantumEnd? || e.EvTakeOff? || e.EvExpropriated? || e.EvWait? {
      CpuMoves(s, e, pid);
    } else {
      OtherMoves(s, e, pid);
    }
    StepInv(s, e);
    WhereItIs(s, pid);
    WhereItIs(Step(s, e), pid);
  }

  // ----- runs -----

  /** How a run ends a process. */
  ghost function FateOf(s: State, es: seq<Event>, pid: int): Fate
    requires Inv(s) && Legal(s, es)
    decreases |es|
  {
    if es == [] then GoesOn
    else if StepFate(s, es[0], pid) != GoesOn then StepFate(s, es[0], pid)
    else (StepInv(s, es[0]); FateOf(Step(s, es[0]), es[1..], pid))
  }

  /** How many words the kills of a run leave for a process. */
  ghost function WordsLeft(s: State, es: seq<Event>, pid: int): nat
    requires Inv(s) && Legal(s, es)
    decreases |es|
  {
    if es == [] then 0
    else
      StepInv(s, es[0]);
      (if LeavesWord(s, es[0], pid) then 1 else 0) + WordsLeft(Step(s, es[0]), es[1..], pid)
  }

  /** Once over, a process stays over, gets no word and uses none. */
  lemma OverStep(s: State, e: Event, pid: int)
    requires Inv(s) && Enabled(s, e) && Over(s, pid)
    ensures Over(Step(s, e), pid) && !LeavesWord(s, e, pid)
    ensures Times(Step(s, e).interrupted, pid) == Times(s.interrupted, pid)
  {
    hide Times, CpuPids, SemPids, IdleCount, Partition, LeaveCpu, RemoveAt, Remove, LiveTimes;
    WhereItIs(s, pid);
    TimesIn(s.ending, pid); TimesIn(s.ended, pid);
    if e.EvEndSweep? {
      EndAllIs(s.(toEnd := s.toEnd - 1, ending := Odds(s.ending)), Evens(s.ending));
      EvensOdds(s.ending, pid);
      TimesIn(Evens(s.ending), pid); TimesIn(Odds(s.ending), pid);
    } else if e.EvQuantumEnd? || e.EvTakeOff? || e.EvExpropriated? || e.EvWait? {
      LeaveCpuIs(s, e.socket);
      if e.EvExpropriated? {
        RemoveTimes(s.interrupted, PidOn(s, e.socket), pid);
      }
    } else if e.EvKill? {
      PutTimes(s.interrupted, e.pid, pid);
      if e.pid in s.ending {
        RemoveTimes(s.ending, e.pid, pid);
        TimesIn(Remove(s.ending, e.pid), pid);
      }
    }
  }

  /** A word left for a process that is over stays for good. */
  lemma {:induction false} WordsOfTheDead(s: State, es: seq<Event>, pid: int)
    requires Inv(s) && Legal(s, es) && Over(s, pid)
    ensures Over(After(s, es), pid) && pid !in After(s, es).running
    ensures Times(After(s, es).interrupted, pid) == Times(s.interrupted, pid)
    ensures WordsLeft(s, es, pid) == 0
    decreases |es|
  {
    hide Times, Step, Inv, Over, Enabled, LeavesWord;
    WhereItIs(s, pid);
    if es != [] {
      OverStep(s, es[0], pid);
      StepInv(s, es[0]);
      WordsOfTheDead(Step(s, es[0]), es[1..], pid);
    }
  }

  /** Over a run an admitted process is over iff the run ends it in one of the three ways,
      and of the words there were and came, one is used iff it was ended by its word. */
  lemma {:induction false} FateOverRuns(s: State, es: seq<Event>, pid: int)
    requires Inv(s) && Legal(s, es) && Alive(s, pid)
    ensures var t, f := After(s, es), FateOf(s, es, pid);
      && (Alive(t, pid) <==> f == GoesOn)
      && (Over(t, pid) <==> f != GoesOn)
      && Times(t.interrupted, pid) + (if f == EndedByWord then 1 else 0)
         == Times(s.interrupted, pid) + WordsLeft(s, es, pid)
    decreases |es|
  {
    hide Times, Step, Inv, Alive, Over, Enabled, LeavesWord, StepFate;
    WhereItIs(s, pid);
    if es != [] {
      var e := es[0];
      FateStep(s, e, pid);
      StepInv(s, e);
      if StepFate(s, e, pid) == GoesOn {
        FateOverRuns(Step(s, e), es[1..], pid);
      } else {
        WordsOfTheDead(Step(s, e), es[1..], pid);
        WhereItIs(After(s, es), pid);
      }
    }
  }

  lemma {:induction false} NoMoreWords(s: State, es: seq<Event>, pid: int)
    requires Inv(s) && Legal(s, es) && EvKill(pid) !in es
    ensures WordsLeft(s, es, pid) == 0 && FateOf(s, es, pid) != EndedAtOnce
    decreases |es|
  {
    hide Step, Inv, Enabled;
    if es != [] {
      assert es[0] in es;
      StepInv(s, es[0]);
      NoMoreWords(Step(s, es[0]), es[1..], pid);
    }
  }

  /** A process killed once, on its CPU: the word is gone iff it ended the process; it is
      left behind, for good, iff the process finished or raised an exception first; until
      either happens the process goes on with the word waiting. */
  lemma KilledOnItsCpu(s: State, es: seq<Event>, pid: int)
    requires Inv(s) && Legal(s, [EvKill(pid)] + es) && EvKill(pid) !in es
    requires pid in s.running && pid !in s.interrupted
    ensures var t, f := After(s, [EvKill(pid)] + es), FateOf(s, [EvKill(pid)] + es, pid);
      && (pid !in t.interrupted <==> f == EndedByWord)
      && (Over(t, pid) && pid in t.interrupted <==> f == EndedItself)
      && (Alive(t, pid) && pid in t.interrupted <==> f == GoesOn)
      && f != EndedAtOnce
  {
    hide Times, Step, Inv, Over, Enabled, Legal;
    var run := [EvKill(pid)] + es;
    assert run[0] == EvKill(pid) && run[1..] == es;
    WhereItIs(s, pid);
    UnfoldLegal(s, run);
    StepInv(s, run[0]);
    NoMoreWords(Step(s, run[0]), es, pid);
    FateOverRuns(s, run, pid);
    TimesIn(s.interrupted, pid);
    TimesIn(After(s, run).interrupted, pid);
  }

  lemma UnfoldLegal(s: State, es: seq<Event>)
    requires Inv(s) && Legal(s, es) && es != []
    ensures Enabled(s, es[0]) && Inv(Step(s, es[0])) && Legal(Step(s, es[0]), es[1..])
  {
    StepInv(s, es[0]);
  }

  /** Both happen: a process killed on its CPU may be handed over at once, or finish first. */
  lemma EitherMayCome(s: State, socket: int, why: Reason)
    requires Inv(s) && OnCpu(s, socket) && PidOn(s, socket) !in s.interrupted
    ensures Legal(s, [EvKill(PidOn(s, socket)), EvExpropriated(socket)])
    ensures FateOf(s, [EvKill(PidOn(s, socket)), EvExpropriated(socket)], PidOn(s, socket)) == EndedByWord
    ensures Legal(s, [EvKill(PidOn(s, socket)), EvTakeOff(socket, why)])
    ensures FateOf(s, [EvKill(PidOn(s, socket)), EvTakeOff(socket, why)], PidOn(s, socket)) == EndedItself
  {
    hide Inv, Step, CpuAt;
    var pid := PidOn(s, socket);
    var e := EvKill(pid);
    WordComes(s, pid);
    StepInv(s, e);
    var t := Step(s, e);
    assert [e, EvExpropriated(socket)][1..] == [EvExpropriated(socket)];
    assert [e, EvTakeOff(socket, why)][1..] == [EvTakeOff(socket, why)];
    OneStep(t, EvExpropriated(socket), pid);
    OneStep(t, EvTakeOff(socket, why), pid);
  }

  lemma WordComes(s: State, pid: int)
    requires Inv(s) && pid in s.running
    ensures Enabled(s, EvKill(pid)) && Step(s, EvKill(pid)) == s.(interrupted := s.interrupted + [pid])
  {
    hide Inv;
    WhereItIs(s, pid);
  }

  lemma OneStep(s: State, e: Event, pid: int)
    requires Inv(s) && Enabled(s, e)
    ensures Legal(s, [e]) && FateOf(s, [e], pid) == StepFate(s, e, pid)
  {
    hide Inv, Step, Enabled, StepFate;
    StepInv(s, e);
    assert [e][1..] == [];
  }
}
