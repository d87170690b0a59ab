/** Servers on which a fetch that the guard lets through goes wrong: one whose frames are not
    adjacent, and one that answers the same fetch in two ways. */
module ProgramWitnesses {
  import opened Bytes
  import opened MemoryTable
  import opened MemorySpec
  import opened MemoryTheorems
  import opened MemoryServer
  import opened Pcb
  import opened ProgramImage
  import opened ProgramOverrun
  import opened ProgramCached

  /** Sixteen frames of 24 bytes, the first eight of them for the table. */
  const SMALL := Geometry(16, 24)

  lemma SmallIs()
    ensures GeometryOk(SMALL) && TableFrames(SMALL) == 8
  {
  }

  /** At the start every frame beyond the table is free. */
  lemma {:induction false} FreeAtStart(g: Geometry, i: nat)
    requires GeometryOk(g) && TableFrames(g) <= i <= g.frames
    ensures Count(InitTable(g)[i..], NOBODY) == g.frames - i
    decreases g.frames - i
  {
    var t := InitTable(g);
    if i < g.frames {
      FreeAtStart(g, i + 1);
      assert t[i..][1..] == t[i + 1..];
    } else {
      assert t[i..] == [];
    }
  }

  /** One page more, in the first free frame. */
  lemma OneMore(t: seq<Entry>, pid: int, n: nat, f: nat, k: nat)
    requires pid != NOBODY && 0 < n <= Count(t, NOBODY) && Count(t, pid) == k
    requires f < |t| && t[f].pid == NOBODY && forall i :: 0 <= i < f ==> t[i].pid != NOBODY
    ensures var r := t[f := Entry(f, pid, k)];
      && Count(r, NOBODY) == Count(t, NOBODY) - 1 && Count(r, pid) == k + 1
      && AssignMany(t, pid, n) == AssignMany(r, pid, n - 1)
  {
    hide Count;
    assert FirstFree(t) == f;
    AssignCounts(t, pid, NOBODY);
    AssignCounts(t, pid, pid);
  }

  /** A page given and taken back. */
  lemma OneBack(t: seq<Entry>, pid: int, f: nat)
    requires f < |t| && t[f].pid == pid && pid != NOBODY
    ensures Count(t[f := Entry(t[f].frame, NOBODY, NOBODY)], NOBODY) == Count(t, NOBODY) + 1
  {
    CountUpdate(t, f, Entry(t[f].frame, NOBODY, NOBODY), NOBODY);
  }

  // ----- the page table, request by request -----

  lemma AtStart()
    ensures var t := InitTable(SMALL);
      && TableInv(SMALL, t) && |t| == 16 && Count(t, NOBODY) == 8
      && (forall pid :: pid >= 1 ==> Count(t, pid) == 0)
      && (forall i :: 0 <= i < 16 ==> t[i] == if i < 8 then Entry(i, TABLE_OWNER, i) else Entry(i, NOBODY, NOBODY))
  {
    hide Count, TableInv;
    SmallIs();
    InitTableInv(SMALL);
    var t := InitTable(SMALL);
    FreeAtStart(SMALL, 8);
    assert t == t[..8] + t[8..];
    NobodyThere(t[..8], t[8..]);
  }

  lemma {:induction false} NobodyThere(a: seq<Entry>, b: seq<Entry>)
    requires forall i :: 0 <= i < |a| ==> a[i].pid != NOBODY
    ensures Count(a + b, NOBODY) == Count(b, NOBODY)
  {
    if a == [] {
      assert a + b == b;
    } else {
      NobodyThere(a[1..], b);
      assert (a + b)[1..] == a[1..] + b;
    }
  }

  function Table2(): (t: seq<Entry>)
    ensures |t| == 16
  {
    SmallIs();
    InitTable(SMALL)[8 := Entry(8, 1, 0)][9 := Entry(9, 1, 1)]
  }

  function Table3(): (t: seq<Entry>)
    ensures |t| == 16
  {
    Table2()[10 := Entry(10, 2, 0)]
  }

  function Table4(): (t: seq<Entry>)
    ensures |t| == 16
  {
    Table3()[8 := Entry(8, NOBODY, NOBODY)][9 := Entry(9, NOBODY, NOBODY)]
  }

  function Table5(): (t: seq<Entry>)
    ensures |t| == 16
  {
    Table4()[8 := Entry(8, 3, 0)][9 := Entry(9, 3, 1)][11 := Entry(11, 3, 2)]
  }

  /** Two pages for process 1. */
  lemma TwoPages()
    ensures Count(InitTable(SMALL), NOBODY) >= 2 && AssignMany(InitTable(SMALL), 1, 2) == Table2()
    ensures TableInv(SMALL, Table2())
    ensures Count(Table2(), NOBODY) == 6 && Count(Table2(), 2) == 0 && Count(Table2(), 3) == 0
  {
    hide Count, TableInv, InitTable, AssignMany;
    AtStart();
    var t := InitTable(SMALL);
    AssignManyInv(SMALL, t, 1, 2);
    OneMore(t, 1, 2, 8, 0);
    OneMore(t[8 := Entry(8, 1, 0)], 1, 1, 9, 1);
    AssignNone(Table2(), 1, 0);
  }

  /** One for process 2, behind them. */
  lemma OnePage()
    ensures TableInv(SMALL, Table2()) && Count(Table2(), NOBODY) >= 1 && AssignMany(Table2(), 2, 1) == Table3()
    ensures TableInv(SMALL, Table3()) && Count(Table3(), NOBODY) == 5 && Count(Table3(), 3) == 0
  {
    hide Count, TableInv, InitTable, AssignMany;
    AtStart();
    TwoPages();
    AssignManyInv(SMALL, Table2(), 2, 1);
    OneMore(Table2(), 2, 1, 10, 0);
    AssignNone(Table3(), 2, 0);
  }

  /** Process 1 ends. */
  lemma PagesBack()
    ensures Wipe(Table3(), 1) == Table4() && TableInv(SMALL, Table4())
    ensures Count(Table4(), NOBODY) == 7 && Count(Table4(), 3) == 0
  {
    hide Count, TableInv, InitTable;
    AtStart();
    OnePage();
    WipeInv(SMALL, Table3(), 1);
    assert Wipe(Table3(), 1) == Table4();
    OneBack(Table3(), 1, 8);
    OneBack(Table3()[8 := Entry(8, NOBODY, NOBODY)], 1, 9);
  }

  /** Three for process 3: the page of process 2 lies between its second and its third. */
  lemma ThreePages()
    ensures TableInv(SMALL, Table4()) && Count(Table4(), NOBODY) >= 3 && AssignMany(Table4(), 3, 3) == Table5()
    ensures TableInv(SMALL, Table5()) && Count(Table5(), 3) == 3
    ensures FrameOf(Table5(), 3, 0) == 8 && FrameOf(Table5(), 3, 1) == 9 && FrameOf(Table5(), 3, 2) == 11
    ensures FrameOf(Table5(), 2, 0) == 10
  {
    hide Count, TableInv, InitTable, AssignMany, FrameOf;
    AtStart();
    PagesBack();
    AssignManyInv(SMALL, Table4(), 3, 3);
    var t := Table4();
    OneMore(t, 3, 3, 8, 0);
    OneMore(t[8 := Entry(8, 3, 0)], 3, 2, 9, 1);
    OneMore(t[8 := Entry(8, 3, 0)][9 := Entry(9, 3, 1)], 3, 1, 11, 2);
    AssignNone(Table5(), 3, 0);
    FrameIs(SMALL, Table5(), 8); FrameIs(SMALL, Table5(), 9);
    FrameIs(SMALL, Table5(), 10); FrameIs(SMALL, Table5(), 11);
  }

  /** Three for a first process: in a row. */
  lemma ThreeInARow()
    ensures Count(InitTable(SMALL), NOBODY) >= 3
    ensures var r := AssignMany(InitTable(SMALL), 3, 3);
      && TableInv(SMALL, r) && Count(r, 3) == 3
      && FrameOf(r, 3, 2) == FrameOf(r, 3, 1) + 1
  {
    hide Count, TableInv, InitTable, AssignMany, FrameOf;
    AtStart();
    var t := InitTable(SMALL);
    AssignManyInv(SMALL, t, 3, 3);
    OneMore(t, 3, 3, 8, 0);
    OneMore(t[8 := Entry(8, 3, 0)], 3, 2, 9, 1);
    OneMore(t[8 := Entry(8, 3, 0)][9 := Entry(9, 3, 1)], 3, 1, 10, 2);
    var r := t[8 := Entry(8, 3, 0)][9 := Entry(9, 3, 1)][10 := Entry(10, 3, 2)];
    AssignNone(r, 3, 0);
    FrameIs(SMALL, r, 9); FrameIs(SMALL, r, 10);
  }

  // ----- the servers -----

  lemma WhereTheyAre()
    ensures TableInv(SMALL, Table5()) && Count(Table5(), 3) == 3
    ensures FrameOf(Table5(), 3, 0) == 8 && FrameOf(Table5(), 3, 1) == 9 && FrameOf(Table5(), 2, 0) == 10
    ensures forall page :: FrameOf(Table5(), 3, page) != 10
  {
    ThreePages();
    hide Table5;
    forall page
      ensures FrameOf(Table5(), 3, page) != 10
    {
      assert Table5()[10].pid == 2;
    }
  }

  /** A process with three pages has room for three pages of code. */
  lemma AllThere(c: Core)
    requires CoreInv(SMALL, c) && Count(c.table, 3) == 3
    ensures CodePages(72, 24) == 3 && forall k :: 0 <= k < 3 ==> Mapped(c, 3, k)
  {
    hide CoreInv, Count, Mapped;
    forall k | 0 <= k < 3
      ensures Mapped(c, 3, k)
    {
      PagesAreAPrefix(SMALL, c, 3, k);
    }
  }

  /** Process 2 writes a 0 to the first byte of its page. */
  lemma Spoiled(st: Settings, s: State, program: seq<Byte>)
    requires st.geo == SMALL && Inv(st, s) && s.core.table == Table5() && Stored(SMALL, s.core, 3, program)
    ensures Inv(st, Write(st, s, 2, 0, 0, [0]).0)
    ensures var c := Write(st, s, 2, 0, 0, [0]).0.core;
      && c.table == Table5() && Stored(SMALL, c, 3, program)
      && Mapped(c, 2, 0) && PageBytes(SMALL, c, 2, 0)[0] == 0
  {
    hide CoreInv, CacheInv, Table5, TableInv, Count, FrameOf, PageBytes, Stored, CoreWrite, Write;
    SmallIs();
    WhereTheyAre();
    WriteStep(st, s, 2, 0, 0, [0]);
    CoreWriteCorrect(SMALL, s.core, 2, 0, 0, [0]);
    StepSparesCode(st, s.core, RqWrite(2, 0, 0, [0]), 3, program);
  }

  /** Then the second read of process 3 ends in that byte. */
  lemma WrongByte(st: Settings, s: State, program: seq<Byte>)
    requires st == Settings(SMALL, 0, 0) && Inv(st, s) && s.core.table == Table5()
    requires Mapped(s.core, 2, 0) && PageBytes(SMALL, s.core, 2, 0)[0] == 0
    requires |program| == 72 && NulFree(program) && Stored(SMALL, s.core, 3, program)
    ensures CanFetchAt(st, s, 3, 0, 1, 48)
    ensures FetchedAt(st, s, 3, 0, 1, 48).1 != Some(program[1..49])
  {
    hide CoreInv, CacheInv, Table5, TableInv, Count, FrameOf, PageBytes, Stored, CString, Source, Asked, CanAsk;
    hide FetchedAt, TableFrames, SlotOf;
    SmallIs();
    WhereTheyAre();
    PagesThere(st, s, 3, program, 0, 1, 48);
    AskedIs(st, s, 3, 0, 1, 23, 1);
    var t := Between(st, s, 3, 0, 1);
    PagesThere(st, t, 3, program, 0, 1, 48);
    NothingCached(st, t, 3, 1);
    MissSource(st, t, 3, 1);
    ByteOfTwo(st, t);
    PastExactIff(st, s, 3, program, 0, 1, 48);
    BehindInMemory(st, t, 3, 1, 25);
    assert Rest(program, 24, 0, 1, 48)[0] == program[48];
  }

  lemma NothingCached(st: Settings, s: State, pid: int, page: int)
    requires Inv(st, s) && st.slots == 0
    ensures SlotOf(s.cache, pid, page) < 0
  {
  }

  lemma ByteOfTwo(st: Settings, s: State)
    requires st.geo == SMALL && Inv(st, s) && s.core.table == Table5()
    requires Mapped(s.core, 2, 0) && PageBytes(SMALL, s.core, 2, 0)[0] == 0
    ensures |s.core.data| == 8 && |s.core.data[1]| == |s.core.data[2]| == 24 && s.core.data[2][0] == 0
  {
    hide CacheInv, Table5, FrameOf, Count;
    SmallIs();
    WhereTheyAre();
  }

  /** With this table two memories that agree on every page of process 3 need not agree on the
      instruction at 1, of two pages' length. */
  lemma OneOfTwoIsWrong(g: Geometry, m: seq<Byte>, program: seq<Byte>, start: nat, length: nat) returns (n: seq<Byte>)
    requires g == SMALL && GeometryOk(g) && |m| == g.frames * g.frameSize && CoreInv(g, CoreOf(g, m))
    requires CoreOf(g, m).table == Table5() && |program| == 72 && NulFree(program)
    requires Stored(g, CoreOf(g, m), 3, program) && start == 1 && length == 48
    ensures SecondReadInMemory(g, m, 3, start, length) && Alike(g, m, n, 3, program)
    ensures forall page :: Mapped(CoreOf(g, m), 3, page) ==>
              PageBytes(g, CoreOf(g, n), 3, page) == PageBytes(g, CoreOf(g, m), 3, page)
    ensures RawFetched(g, m, 3, start, length) == Some(program[start..start + length]) ==>
              RawFetched(g, n, 3, start, length) != Some(program[start..start + length])
  {
    hide CoreInv, CoreOf, Table5, FrameOf, Stored, NulFree, Mapped, PageBytes, RawFetched, TableFrames, GeometryOk;
    WhereTheyAre();
    assert start / g.frameSize == 0 && start % g.frameSize == 1;
    n := FetchReadsOtherFrame(g, m, 3, program, start, length);
  }

  /** Process 3 loads into what process 1 left and what was free behind process 2, which then
      writes a byte to its page: the instruction of process 3 at 1, of two pages' length, is
      fetched wrong, with its program as it was stored. */
  method ReadsAnotherProcess(program: seq<Byte>) returns (m: Memory, r: Option<seq<Byte>>)
    requires |program| == 72 && NulFree(program)
    ensures m.Valid() && m.st == Settings(SMALL, 0, 0)
    ensures Stored(SMALL, m.CoreNow(), 3, program)
    ensures m.CoreNow().table == Table5()
    ensures r != Some(program[1..49])
  {
    hide Count, TableInv, InitTable, AssignMany, FrameOf, CoreOf, CoreInv, CacheInv, Stored, Wipe, Table2, Table3, Table4,
         Table5, TableFrames, PageBytes, FetchedAt, CanFetchAt, Write, Read;
    SmallIs();
    m := new Memory(Settings(SMALL, 0, 0));
    TwoPages(); OnePage(); PagesBack(); ThreePages();
    var code := m.AssignPages(1, 2);
    code := m.AssignPages(2, 1);
    m.FinishProgram(1);
    code := m.AssignPages(3, 3);
    assert m.CoreNow().table == Table5();
    AllThere(m.CoreNow());
    code := StoreProgram(m, 3, program);
    Spoiled(m.st, m.Now(), program);
    code := m.StoreBytes(2, 0, 0, [0]);
    WrongByte(m.st, m.Now(), program);
    r := Fetch(m, 3, 1, 48);
  }

  /** A program alone in memory, its cache just flushed: the instruction at 1, of two pages'
      length, is fetched exactly, and wrong when it is fetched again. */
  method AnswersTwice(program: seq<Byte>) returns (m: Memory, first: Option<seq<Byte>>, again: Option<seq<Byte>>)
    requires |program| == 72 && NulFree(program) && 255 !in program
    ensures m.Valid() && m.st == Settings(SMALL, 3, 2)
    ensures Stored(SMALL, m.CoreNow(), 3, program)
    ensures first == Some(program[1..49]) && again != first
  {
    hide Count, TableInv, InitTable, AssignMany, FrameOf, CoreOf, CoreInv, CacheInv, Stored, Filled,
         TableFrames, PageBytes, FetchedAt, CanFetchAt, Write, Read;
    SmallIs();
    m := new Memory(Settings(SMALL, 3, 2));
    ThreeInARow();
    var code := m.AssignPages(3, 3);
    AllThere(m.CoreNow());
    code := StoreProgram(m, 3, program);
    FlushedIsFilled(m.Now(), 3, 0);
    m.FlushCache();
    SecondTimeWrong(m.st, m.Now(), 3, program, 0, 1, 48);
    first := Fetch(m, 3, 1, 48);
    again := Fetch(m, 3, 1, 48);
  }
}
