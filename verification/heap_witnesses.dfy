/** Runs of the heap on which the code does less than one would expect, to set beside the
    conditions under which it does not. */
module HeapWitnesses {
  import opened Bytes
  import opened Lists
  import opened HeapPage
  import opened PageOps
  import opened Heap
  import opened HeapRuns
  import opened HeapTheorems

  // ----- the leak report -----

  /** A refusal does happen, and the report then counts a block that is not live and as
      many bytes as were asked for. */
  lemma LeakReportCanBeWrong(cfg: Config, size: nat)
    requires ConfigOk(cfg) && size + 2 * META <= cfg.pageSize
    ensures LegalRun(cfg, [EvStart(1, 1), EvAllocate(1, size, Refused)])
    ensures var t := Reached(cfg, [EvStart(1, 1), EvAllocate(1, size, Refused)]);
      && 1 in t.procs
      && t.procs[1].account.allocs - t.procs[1].account.frees == TallyOf(t.pages, 1).blocks + 1
      && t.procs[1].account.allocBytes - t.procs[1].account.freeBytes == TallyOf(t.pages, 1).bytes + size
  {
    var e0, e1 := EvStart(1, 1), EvAllocate(1, size, Refused);
    EmptyInv(cfg);
    var s1 := Step(cfg, EMPTY, e0);
    StepInv(cfg, EMPTY, e0);
    assert [e0, e1][1..] == [e1];
    OverLimitIff(cfg.pageSize, size);
    var s2 := Step(cfg, s1, e1);
    StepInv(cfg, s1, e1);
    assert Legal(cfg, s2, []);
    assert Legal(cfg, s1, [e1]);
    assert After(cfg, s1, [e1]) == s2;
  }

  // ----- two neighbouring entries -----

  lemma {:induction false} NothingFree(P: nat, ps: seq<Page>, i: nat, pid: int, size: nat)
    requires IsInt(P) && i <= |ps| && forall j :: 0 <= j < |ps| ==> PageInv(P, ps[j]) && ps[j].available == 0
    ensures Search(P, ps, i, pid, size) == (ps, -1)
    decreases |ps| - i
  {
    if i < |ps| {
      NothingFree(P, ps, i + 1, pid, size);
    }
  }

  /** When every page is full, the largest request adds a page that is full at once. */
  lemma LargestRequest(cfg: Config, s: State, pid: int, stale: seq<Byte>)
    requires Inv(cfg, s) && pid in s.procs && |stale| == cfg.pageSize
    requires forall j :: 0 <= j < |s.pages| ==> s.pages[j].available == 0
    ensures Enabled(cfg, s, EvAllocate(pid, cfg.pageSize - 2 * META, Frame(stale)))
    ensures var t := Step(cfg, s, EvAllocate(pid, cfg.pageSize - 2 * META, Frame(stale)));
      && t.procs.Keys == s.procs.Keys
      && |t.pages| == |s.pages| + 1 && t.pages[..|s.pages|] == s.pages
      && t.pages[|s.pages|].key.pid == pid && t.pages[|s.pages|].available == 0
  {
    hide Search, Inv, PageInv;
    InvFacts(cfg, s, pid);
    OverLimitIff(cfg.pageSize, cfg.pageSize - 2 * META);
    NothingFree(cfg.pageSize, s.pages, 0, pid, cfg.pageSize - 2 * META);
  }

  lemma TwoOfOne(s: State, pid: int)
    requires |s.pages| == 2 && s.pages[0].key.pid == pid && s.pages[1].key.pid == pid
    ensures Finish(s, pid).pages == [s.pages[1]]
  {
    DropOfTwo(s.pages, (g: Page) => g.key.pid == pid);
  }

  lemma DropOfTwo(ps: seq<Page>, mine: Page -> bool)
    requires |ps| == 2 && mine(ps[0])
    ensures DropSkipping(ps, mine) == [ps[1]]
  {
    assert DropSkipping(ps[2..], mine) == [];
  }

  /** Such neighbours do come about: a process that fills two pages and ends leaves one
      entry behind it. */
  lemma EntryLeftBehind(cfg: Config, stale: seq<Byte>) returns (es: seq<Event>)
    requires ConfigOk(cfg) && |stale| == cfg.pageSize
    ensures LegalRun(cfg, es)
    ensures var t := Reached(cfg, es); 1 !in t.procs && |t.pages| == 1 && t.pages[0].key.pid == 1
  {
    hide Linked, PagesInv, Allocate, Inv;
    var big := EvAllocate(1, cfg.pageSize - 2 * META, Frame(stale));
    EmptyInv(cfg);
    StepInv(cfg, EMPTY, EvStart(1, 1));
    var s1 := Step(cfg, EMPTY, EvStart(1, 1));
    LargestRequest(cfg, s1, 1, stale);
    StepInv(cfg, s1, big);
    var s2 := Step(cfg, s1, big);
    LargestRequest(cfg, s2, 1, stale);
    StepInv(cfg, s2, big);
    var s3 := Step(cfg, s2, big);
    StepInv(cfg, s3, EvFinish(1));
    var s4 := Step(cfg, s3, EvFinish(1));
    assert s3.pages[0] == s3.pages[..1][0] == s2.pages[0];
    TwoOfOne(s3, 1);
    es := [EvStart(1, 1), big, big, EvFinish(1)];
    assert es[1..] == [big, big, EvFinish(1)] && es[1..][1..] == [big, EvFinish(1)];
    assert [big, EvFinish(1)][1..] == [EvFinish(1)] && [EvFinish(1)][1..] == [];
    assert Legal(cfg, s4, []) && After(cfg, s4, []) == s4;
    assert Legal(cfg, s3, [EvFinish(1)]) && After(cfg, s3, [EvFinish(1)]) == s4;
    assert Legal(cfg, s2, [big, EvFinish(1)]) && After(cfg, s2, [big, EvFinish(1)]) == s4;
    assert Legal(cfg, s1, es[1..]) && After(cfg, s1, es[1..]) == s4;
  }

  // ----- two free neighbours left by compaction -----

  lemma FirstRequest(cfg: Config, s: State, pid: int, stale: seq<Byte>)
    requires Inv(cfg, s) && pid in s.procs && |stale| == cfg.pageSize && s.pages == []
    ensures Enabled(cfg, s, EvAllocate(pid, 0, Frame(stale)))
    ensures var t := Step(cfg, s, EvAllocate(pid, 0, Frame(stale)));
      && pid in t.procs && |t.pages| == 1 && t.pages[0].key.pid == pid
      && t.pages[0].blocks == [Block(true, 0), Block(false, cfg.pageSize - 2 * META)]
  {
    hide Inv;
    InvFacts(cfg, s, pid);
    OverLimitIff(cfg.pageSize, 0);
  }

  /** A request for all but the last header of the free block behind an empty one. */
  lemma SplitToTheEnd(cfg: Config, s: State, pid: int)
    requires Inv(cfg, s) && pid in s.procs && cfg.pageSize >= 3 * META && |s.pages| == 1
    requires s.pages[0].key.pid == pid
    requires s.pages[0].blocks == [Block(true, 0), Block(false, cfg.pageSize - 2 * META)]
    ensures Enabled(cfg, s, EvAllocate(pid, cfg.pageSize - 3 * META, Refused)) && pid in s.granted
    ensures var (t, o) := Allocate(cfg, s, pid, cfg.pageSize - 3 * META, Refused);
      && pid in t.procs && |t.pages| == 1 && t.pages[0].key == s.pages[0].key
      && t.pages[0].blocks == [Block(true, 0), Block(true, cfg.pageSize - 3 * META), Block(false, 0)]
      && o == Placed(s.pages[0].key.page, 2 * META)
  {
    hide Lays, Live, CompactPageBytes, SplitBytes, Linked;
    var g, P := s.pages[0], cfg.pageSize;
    InvFacts(cfg, s, pid);
    OverLimitIff(P, P - 3 * META);
    assert PageInv(P, g);
    assert g.blocks[2..] == [] && g.blocks[1..] == [g.blocks[1]] && g.blocks[..1] == [g.blocks[0]];
    OneBlock(g.blocks[0]);
    OneBlock(g.blocks[1]);
    assert FreeBytes(g.blocks) == P - 2 * META;
    PageInts(g.bytes, g.blocks);
    assert CompactPageBlocks(g.blocks) == [g.blocks[0]] + CompactBlocks(g.blocks[1], []);
    assert CompactPage(g).blocks == g.blocks;
    assert FirstFit(g.blocks[1..], P - 3 * META) == 0;
    assert FirstFit(g.blocks, P - 3 * META) == 1;
  }

  /** A run after which a page between requests has two free neighbours that compaction
      will not merge. */
  lemma PairReached(cfg: Config, stale: seq<Byte>) returns (es: seq<Event>)
    requires ConfigOk(cfg) && |stale| == cfg.pageSize && cfg.pageSize >= 3 * META
    ensures LegalRun(cfg, es)
    ensures var t := Reached(cfg, es);
      && |t.pages| == 1 && |t.pages[0].blocks| >= 2
      && !NoFreeNeighbours(CompactPageBlocks(t.pages[0].blocks))
  {
    hide Linked, PagesInv, Allocate, Inv, Release, CompactPageBlocks;
    EmptyInv(cfg);
    StepInv(cfg, EMPTY, EvStart(1, 1));
    var s1 := Step(cfg, EMPTY, EvStart(1, 1));
    var e1 := EvAllocate(1, 0, Frame(stale));
    FirstRequest(cfg, s1, 1, stale);
    StepInv(cfg, s1, e1);
    var s2 := Step(cfg, s1, e1);
    var e2 := EvAllocate(1, cfg.pageSize - 3 * META, Refused);
    SplitToTheEnd(cfg, s2, 1);
    AllocateCorrect(cfg, s2, 1, cfg.pageSize - 3 * META, Refused);
    StepInv(cfg, s2, e2);
    var s3 := Step(cfg, s2, e2);
    var e3 := EvRelease(1, s3.pages[0].key.page, 2 * META);
    MiddleFreed(cfg, s3, 1);
    StepInv(cfg, s3, e3);
    var s4 := Step(cfg, s3, e3);
    PairRemains(cfg.pageSize - 3 * META);
    assert s4.pages[0].blocks == [Block(true, 0), Block(false, cfg.pageSize - 3 * META), Block(false, 0)];
    es := [EvStart(1, 1), e1, e2, e3];
    assert es[1..] == [e1, e2, e3] && es[1..][1..] == [e2, e3];
    assert [e2, e3][1..] == [e3] && [e3][1..] == [];
    assert Legal(cfg, s4, []) && After(cfg, s4, []) == s4;
    assert Legal(cfg, s3, [e3]) && After(cfg, s3, [e3]) == s4;
    assert Legal(cfg, s2, [e2, e3]) && After(cfg, s2, [e2, e3]) == s4;
    assert Legal(cfg, s1, es[1..]) && After(cfg, s1, es[1..]) == s4;
  }

  lemma MiddleFreed(cfg: Config, s: State, pid: int)
    requires Inv(cfg, s) && pid in s.procs && |s.pages| == 1 && s.pages[0].key.pid == pid
    requires |s.pages[0].blocks| == 3 && s.pages[0].blocks[0] == Block(true, 0) && s.pages[0].blocks[1].used
    ensures var e := EvRelease(pid, s.pages[0].key.page, 2 * META);
      && Enabled(cfg, s, e)
      && |Step(cfg, s, e).pages| == 1
      && Step(cfg, s, e).pages[0].blocks == s.pages[0].blocks[1 := Block(false, s.pages[0].blocks[1].size)]
  {
    hide Linked, FreePage, Lays, Live;
    var g, key := s.pages[0], s.pages[0].key;
    assert PageInv(cfg.pageSize, g);
    ContentsOf(cfg.pageSize, s.pages, g);
    OneBlock(g.blocks[0]);
    assert g.blocks[..1] == [g.blocks[0]];
    LiveAt(g.bytes, g.blocks, 1);
    OwnedBlock(cfg, s, key, 2 * META);
    assert PageIndex(s.pages, key) == 0;
    assert BlockAt(g.blocks, 2 * META) == 1;
    HeaderFits(cfg.pageSize, g, 1);
    FreedBlocks(g, 1);
  }

  lemma FreedBlocks(g: Page, k: nat)
    requires k < |g.blocks| && IsInt(g.blocks[k].size) && HeaderAt(g, k) + META <= |g.bytes| && IsInt(|g.bytes|)
    ensures FreePage(g, k).blocks == g.blocks[k := Block(false, g.blocks[k].size)]
  {
  }
}
