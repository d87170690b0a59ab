/** What every run of heap requests keeps. */
module HeapTheorems {
  import opened Bytes
  import opened Lists
  import opened HeapPage
  import opened PageOps
  import opened Heap
  import opened HeapRuns

  // ----- lists of pages that differ in one entry -----

  lemma SameKeys(ps: seq<Page>, qs: seq<Page>)
    requires |ps| == |qs| && forall j :: 0 <= j < |ps| ==> qs[j].key == ps[j].key
    requires DistinctKeys(ps)
    ensures DistinctKeys(qs)
  {
  }

  /** Same keys, and the same payloads in every entry but f. */
  lemma ContentsStep(P: nat, ps: seq<Page>, qs: seq<Page>, f: int, key: Key)
    requires PagesInv(P, ps) && PagesInv(P, qs) && |ps| == |qs|
    requires forall j :: 0 <= j < |ps| ==> qs[j].key == ps[j].key
    requires forall j :: 0 <= j < |ps| && j != f ==> Payloads(qs[j]) == Payloads(ps[j])
    requires 0 <= f < |ps| ==> ps[f].key != key
    ensures Contents(P, qs, key) == Contents(P, ps, key)
  {
    if g :| g in ps && g.key == key {
      var j :| 0 <= j < |ps| && ps[j] == g;
      ContentsOf(P, ps, ps[j]);
      ContentsOf(P, qs, qs[j]);
    }
  }

  lemma ContentsAppend(P: nat, ps: seq<Page>, g: Page, key: Key)
    requires PagesInv(P, ps) && PagesInv(P, ps + [g])
    requires g.key != key
    ensures Contents(P, ps + [g], key) == Contents(P, ps, key)
  {
    if h :| h in ps && h.key == key {
      assert h in ps + [g];
      ContentsOf(P, ps, h);
      ContentsOf(P, ps + [g], h);
    }
  }

  lemma NoContents(P: nat, ps: seq<Page>, key: Key)
    requires PagesInv(P, ps) && forall j :: 0 <= j < |ps| ==> ps[j].key != key
    ensures Contents(P, ps, key) == map[]
  {
  }

  /** A process whose pages, tally and record are as they were stays linked. */
  lemma StillLinked(cfg: Config, s: State, t: State, pid: int)
    requires pid in s.procs && pid in t.procs && Linked(cfg, s, pid)
    requires t.procs[pid] == s.procs[pid]
    requires pid in t.granted && t.granted[pid] == s.granted[pid]
    requires TallyOf(t.pages, pid) == TallyOf(s.pages, pid)
    requires forall j :: 0 <= j < |t.pages| && t.pages[j].key.pid == pid ==>
               j < |s.pages| && t.pages[j].key == s.pages[j].key
    ensures Linked(cfg, t, pid)
  {
    hide TallyOf;
  }

  // ----- allocation -----

  lemma SearchTally(P: nat, ps: seq<Page>, pid: int, size: nat, q: int)
    requires forall j :: 0 <= j < |ps| ==> PageInv(P, ps[j])
    requires IsInt(P) && size + 2 * META <= P
    ensures TallyOf(Search(P, ps, 0, pid, size).0, q) == TallyOf(ps, q)
  {
    hide Search, PageInv, Tiled;
    SearchCorrect(P, ps, 0, pid, size);
    TallySame(ps, Search(P, ps, 0, pid, size).0, q);
  }

  /** What one allocation promises. When it is placed, the process gains a pointer it did
      not have, with exactly size payload bytes inside the page; every other payload of
      every page is byte for byte what it was. When it is refused nothing is lost. */
  ghost predicate AllocPromise(cfg: Config, s: State, t: State, pid: int, size: int, o: Outcome)
    requires PagesInv(cfg.pageSize, s.pages) && PagesInv(cfg.pageSize, t.pages)
  {
    match o
    case Placed(page, off) =>
      && 0 <= size && META <= off && off + size <= cfg.pageSize
      && off !in Contents(cfg.pageSize, s.pages, Key(pid, page))
      && (exists d: seq<Byte> :: |d| == size &&
            Contents(cfg.pageSize, t.pages, Key(pid, page)) == Contents(cfg.pageSize, s.pages, Key(pid, page))[off := d])
      && (forall c :: c != Key(pid, page) ==>
            Contents(cfg.pageSize, t.pages, c) == Contents(cfg.pageSize, s.pages, c))
    case _ =>
      forall c :: Contents(cfg.pageSize, t.pages, c) == Contents(cfg.pageSize, s.pages, c)
  }

  /** The request is placed in a page the process already has. */
  lemma AllocFound(cfg: Config, s: State, pid: int, size: nat, qs: seq<Page>, f: int)
    requires Inv(cfg, s) && pid in s.procs && size + 2 * META <= cfg.pageSize
    requires (qs, f) == Search(cfg.pageSize, s.pages, 0, pid, size) && f >= 0
    ensures FirstFit(qs[f].blocks, size) >= 0
    ensures Tiled(cfg.pageSize, qs[f])
    ensures HeaderAt(qs[f], FirstFit(qs[f].blocks, size)) + META + qs[f].blocks[FirstFit(qs[f].blocks, size)].size
         <= |qs[f].bytes|
    ensures var k := FirstFit(qs[f].blocks, size);
      var t := s.(pages := qs[f := Carve(qs[f], k, size)], procs := s.procs[pid := ChargeAlloc(s.procs[pid], size, 0)]);
      && Inv(cfg, t)
      && AllocPromise(cfg, s, t, pid, size, Placed(qs[f].key.page, HeaderAt(qs[f], k) + META))
  {
    hide Search, FirstFit, Carve, Lays, Live, TallyPage;
    var P := cfg.pageSize;
    SearchCorrect(P, s.pages, 0, pid, size);
    var k := FirstFit(qs[f].blocks, size);
    CarveKeeps(P, qs[f], k, size);
    var h := Carve(qs[f], k, size);
    AllocFoundInv(cfg, s, pid, size, qs, f, h);
    var ts := qs[f := h];
    var key, off := Key(pid, qs[f].key.page), HeaderAt(qs[f], k) + META;
    ContentsOf(P, s.pages, s.pages[f]);
    ContentsOf(P, ts, ts[f]);
    assert |qs[f].bytes[off..off + size]| == size;
    forall c | c != key
      ensures Contents(P, ts, c) == Contents(P, s.pages, c)
    {
      ContentsStep(P, s.pages, ts, f, c);
    }
  }

  lemma AllocFoundInv(cfg: Config, s: State, pid: int, size: nat, qs: seq<Page>, f: int, h: Page)
    requires Inv(cfg, s) && pid in s.procs && size + 2 * META <= cfg.pageSize
    requires (qs, f) == Search(cfg.pageSize, s.pages, 0, pid, size) && f >= 0
    requires PageInv(cfg.pageSize, h) && h.key == qs[f].key
    requires LiveCount(h.blocks) == LiveCount(qs[f].blocks) + 1
    requires LiveBytes(h.blocks) == LiveBytes(qs[f].blocks) + size
    ensures Inv(cfg, s.(pages := qs[f := h], procs := s.procs[pid := ChargeAlloc(s.procs[pid], size, 0)]))
  {
    hide Search, FirstFit, PageInv, LiveCount, LiveBytes, Payloads, TallyOf;
    var P := cfg.pageSize;
    SearchCorrect(P, s.pages, 0, pid, size);
    var t := s.(pages := qs[f := h], procs := s.procs[pid := ChargeAlloc(s.procs[pid], size, 0)]);
    SameKeys(s.pages, t.pages);
    forall q | q in t.procs
      ensures Linked(cfg, t, q)
    {
      SearchTally(P, s.pages, pid, size, q);
      TallyUpdate(qs, f, h, q);
      if q != pid {
        StillLinked(cfg, s, t, q);
      } else {
        assert Linked(cfg, s, pid);
      }
    }
  }

  /** No page of the process serves and the memory server has none to give. */
  lemma AllocRefused(cfg: Config, s: State, pid: int, size: nat, qs: seq<Page>)
    requires Inv(cfg, s) && pid in s.procs && size + 2 * META <= cfg.pageSize
    requires (qs, -1) == Search(cfg.pageSize, s.pages, 0, pid, size)
    ensures var c := ChargeAlloc(s.procs[pid], size, 0);
      var t := s.(pages := qs,
                  procs := s.procs[pid := c.(refused := c.refused + 1, refusedBytes := c.refusedBytes + size)]);
      && Inv(cfg, t)
      && AllocPromise(cfg, s, t, pid, size, NoPage)
  {
    hide Search, FirstFit, PageInv, LiveCount, LiveBytes, Payloads, TallyOf;
    var P := cfg.pageSize;
    SearchCorrect(P, s.pages, 0, pid, size);
    SameKeys(s.pages, qs);
    var c := ChargeAlloc(s.procs[pid], size, 0);
    var t := s.(pages := qs,
                procs := s.procs[pid := c.(refused := c.refused + 1, refusedBytes := c.refusedBytes + size)]);
    forall q | q in t.procs
      ensures Linked(cfg, t, q)
    {
      SearchTally(P, s.pages, pid, size, q);
      if q != pid {
        StillLinked(cfg, s, t, q);
      } else {
        assert Linked(cfg, s, pid);
      }
    }
    forall key
      ensures Contents(P, qs, key) == Contents(P, s.pages, key)
    {
      ContentsStep(P, s.pages, qs, -1, key);
    }
  }

  /** A page more, numbered as the memory server numbers it, holds the new block. */
  lemma AllocFresh(cfg: Config, s: State, pid: int, size: nat, qs: seq<Page>, stale: seq<Byte>)
    requires Inv(cfg, s) && pid in s.procs && size + 2 * META <= cfg.pageSize
    requires (qs, -1) == Search(cfg.pageSize, s.pages, 0, pid, size)
    requires |stale| == cfg.pageSize
    ensures HeaderAt(FreshPage(cfg.pageSize, Key(pid, NextPage(cfg, s.procs[pid])), stale), 0) == 0
    ensures var p := s.procs[pid];
      var g := FreshPage(cfg.pageSize, Key(pid, NextPage(cfg, p)), stale);
      var t := s.(pages := qs + [Carve(g, 0, size)], procs := s.procs[pid := ChargeAlloc(p, size, 1)],
                  granted := s.granted[pid := s.granted[pid] + 1]);
      && Inv(cfg, t)
      && AllocPromise(cfg, s, t, pid, size, Placed(g.key.page, META))
  {
    hide Search, FirstFit, Carve, Lays, Live, LiveCount, LiveBytes, TallyOf;
    var P := cfg.pageSize;
    var p := s.procs[pid];
    var key := Key(pid, NextPage(cfg, p));
    SearchCorrect(P, s.pages, 0, pid, size);
    FreshTiled(P, key, stale);
    var g := FreshPage(P, key, stale);
    CarveKeeps(P, g, 0, size);
    var h := Carve(g, 0, size);
    assert HeaderAt(g, 0) == 0 by {
      assert g.blocks[..0] == [];
    }
    var ts := qs + [h];
    assert h.key == key;
    AllocFreshInv(cfg, s, pid, size, qs, h);
    assert Linked(cfg, s, pid);
    NoContents(P, s.pages, key);
    ContentsOf(P, ts, ts[|qs|]);
    assert |g.bytes[META..META + size]| == size;
    assert Payloads(h) == map[][META := g.bytes[META..META + size]];
    assert PagesInv(P, qs) by {
      assert forall j :: 0 <= j < |qs| ==> qs[j] == ts[j];
    }
    forall c | c != key
      ensures Contents(P, ts, c) == Contents(P, s.pages, c)
    {
      ContentsStep(P, s.pages, qs, -1, c);
      ContentsAppend(P, qs, h, c);
    }
  }

  lemma AllocFreshInv(cfg: Config, s: State, pid: int, size: nat, qs: seq<Page>, h: Page)
    requires Inv(cfg, s) && pid in s.procs && size + 2 * META <= cfg.pageSize
    requires (qs, -1) == Search(cfg.pageSize, s.pages, 0, pid, size)
    requires PageInv(cfg.pageSize, h) && h.key == Key(pid, NextPage(cfg, s.procs[pid]))
    requires LiveCount(h.blocks) == 1 && LiveBytes(h.blocks) == size
    ensures Linked(cfg, s, pid)
    ensures Inv(cfg, s.(pages := qs + [h], procs := s.procs[pid := ChargeAlloc(s.procs[pid], size, 1)],
                        granted := s.granted[pid := s.granted[pid] + 1]))
  {
    hide Search, FirstFit, PageInv, LiveCount, LiveBytes, Payloads, TallyOf;
    var P := cfg.pageSize;
    SearchCorrect(P, s.pages, 0, pid, size);
    assert Linked(cfg, s, pid);
    SameKeys(s.pages, qs);
    var t := s.(pages := qs + [h], procs := s.procs[pid := ChargeAlloc(s.procs[pid], size, 1)],
                granted := s.granted[pid := s.granted[pid] + 1]);
    assert PagesInv(P, t.pages);
    forall q | q in t.procs
      ensures Linked(cfg, t, q)
    {
      SearchTally(P, s.pages, pid, size, q);
      TallyAppend(qs, h, q);
      if q != pid {
        StillLinked(cfg, s, t, q);
      } else {
        assert TallyPage(h, pid) == Tally(1, 1, size);
        assert NextPage(cfg, t.procs[pid]) == NextPage(cfg, s.procs[pid]) + 1;
      }
    }
  }

  lemma InvFacts(cfg: Config, s: State, pid: int)
    requires Inv(cfg, s) && pid in s.procs
    ensures ConfigOk(cfg) && PagesInv(cfg.pageSize, s.pages)
    ensures Linked(cfg, s, pid)
  {
  }

  lemma TooBigChangesNothing(cfg: Config, s: State, pid: int, size: int)
    requires PagesInv(cfg.pageSize, s.pages)
    ensures AllocPromise(cfg, s, s, pid, size, TooBig)
  {
  }

  /** A request within the limit is refused for lack of a page iff no page of the process
      can serve it and the memory server grants none. */
  ghost predicate LacksPage(cfg: Config, s: State, pid: int, size: int, grant: Grant)
    requires ConfigOk(cfg) && PagesInv(cfg.pageSize, s.pages)
  {
    && 0 <= size && size + 2 * META <= cfg.pageSize
    && NoFit(cfg.pageSize, s.pages, 0, pid, size)
    && grant.Refused?
  }

  lemma NoPageIff(cfg: Config, s: State, pid: int, size: int, grant: Grant)
    requires Inv(cfg, s) && Enabled(cfg, s, EvAllocate(pid, size, grant))
    ensures pid in s.granted
    ensures Allocate(cfg, s, pid, size, grant).1.NoPage? <==> LacksPage(cfg, s, pid, size, grant)
  {
    hide Search, FirstFit, Carve, FreshPage, PageInv, DistinctKeys, OverLimit;
    InvFacts(cfg, s, pid);
    OverLimitIff(cfg.pageSize, size);
    if !OverLimit(cfg.pageSize, size) {
      SearchFailsIff(cfg.pageSize, s.pages, 0, pid, size);
    }
  }

  /** gestionarAlocar, whatever the size and whatever the memory server answers. */
  lemma AllocateCorrect(cfg: Config, s: State, pid: int, size: int, grant: Grant)
    requires Inv(cfg, s) && Enabled(cfg, s, EvAllocate(pid, size, grant))
    ensures pid in s.granted
    ensures var (t, o) := Allocate(cfg, s, pid, size, grant);
      && Inv(cfg, t)
      && AllocPromise(cfg, s, t, pid, size, o)
      && (o.TooBig? <==> size < 0 || size + 2 * META > cfg.pageSize)
      && (o.NoPage? <==> LacksPage(cfg, s, pid, size, grant))
  {
    hide Search, FirstFit, Carve, FreshPage, Inv, AllocPromise, PageInv, DistinctKeys, OverLimit, LacksPage;
    InvFacts(cfg, s, pid);
    NoPageIff(cfg, s, pid, size, grant);
    OverLimitIff(cfg.pageSize, size);
    if !OverLimit(cfg.pageSize, size) {
      SearchCorrect(cfg.pageSize, s.pages, 0, pid, size);
      var (qs, f) := Search(cfg.pageSize, s.pages, 0, pid, size);
      if f >= 0 {
        AllocFound(cfg, s, pid, size, qs, f);
      } else if grant.Refused? {
        AllocRefused(cfg, s, pid, size, qs);
      } else {
        AllocFresh(cfg, s, pid, size, qs, grant.stale);
      }
    } else {
      TooBigChangesNothing(cfg, s, pid, size);
    }
  }

  // ----- the other requests -----

  /** liberarBloqueHeap on a live pointer: that payload stops being live, its size comes
      back to the counter and to the account, and no other payload changes. */
  lemma ReleaseCorrect(cfg: Config, s: State, key: Key, off: int)
    requires Inv(cfg, s) && key.pid in s.procs && Owned(cfg, s, key, off)
    ensures var t := Release(cfg, s, key, off);
      && Inv(cfg, t)
      && Contents(cfg.pageSize, t.pages, key) == Contents(cfg.pageSize, s.pages, key) - {off}
      && (forall c :: c != key ==> Contents(cfg.pageSize, t.pages, c) == Contents(cfg.pageSize, s.pages, c))
      && t.procs[key.pid].account.freeBytes
         == s.procs[key.pid].account.freeBytes + |Contents(cfg.pageSize, s.pages, key)[off]|
  {
    hide PageInv, LiveCount, LiveBytes, TallyOf, FreePage, BlockAt, PageIndex;
    var P := cfg.pageSize;
    OwnedBlock(cfg, s, key, off);
    var i := PageIndex(s.pages, key);
    var g := s.pages[i];
    var k := BlockAt(g.blocks, off);
    HeaderFits(P, g, k);
    FreeKeeps(P, g, k);
    var h := FreePage(g, k);
    var t := Release(cfg, s, key, off);
    assert t.pages == s.pages[i := h];
    SameKeys(s.pages, t.pages);
    forall q | q in t.procs
      ensures Linked(cfg, t, q)
    {
      TallyUpdate(s.pages, i, h, q);
      if q != key.pid {
        StillLinked(cfg, s, t, q);
      } else {
        assert Linked(cfg, s, q);
      }
    }
    ContentsOf(P, t.pages, t.pages[i]);
    forall c | c != key
      ensures Contents(P, t.pages, c) == Contents(P, s.pages, c)
    {
      ContentsStep(P, s.pages, t.pages, i, c);
    }
  }

  /** A program storing inside a block it owns changes that payload only. */
  lemma StoreCorrect(cfg: Config, s: State, e: Event)
    requires Inv(cfg, s) && e.EvStore? && Enabled(cfg, s, e)
    ensures var t, key, off := Step(cfg, s, e), Key(e.pid, e.page), e.offset;
      && Inv(cfg, t)
      && off in Contents(cfg.pageSize, s.pages, key)
      && e.at - off + |e.d| <= |Contents(cfg.pageSize, s.pages, key)[off]|
      && Contents(cfg.pageSize, t.pages, key)
         == Contents(cfg.pageSize, s.pages, key)[off := Paste(Contents(cfg.pageSize, s.pages, key)[off], e.at - off, e.d)]
      && (forall c :: c != key ==> Contents(cfg.pageSize, t.pages, c) == Contents(cfg.pageSize, s.pages, c))
  {
    hide LiveCount, LiveBytes, TallyOf, BlockAt, PageIndex, Lays, Live, Span, FreeBytes;
    var P, key, off := cfg.pageSize, Key(e.pid, e.page), e.offset;
    OwnedBlock(cfg, s, key, off);
    var i := PageIndex(s.pages, key);
    var g := s.pages[i];
    var k := BlockAt(g.blocks, off);
    HeaderFits(P, g, k);
    WriteCorrect(g.bytes, g.blocks, k, e.at, e.d);
    var t := Step(cfg, s, e);
    var h := g.(bytes := Paste(g.bytes, e.at, e.d));
    assert t.pages == s.pages[i := h];
    SameKeys(s.pages, t.pages);
    forall q | q in t.procs
      ensures Linked(cfg, t, q)
    {
      TallyUpdate(s.pages, i, h, q);
      StillLinked(cfg, s, t, q);
    }
    ContentsOf(P, t.pages, t.pages[i]);
    forall c | c != key
      ensures Contents(P, t.pages, c) == Contents(P, s.pages, c)
    {
      ContentsStep(P, s.pages, t.pages, i, c);
    }
  }

  lemma {:induction false} DropKeeps(P: nat, ps: seq<Page>, pid: int, q: int)
    requires PagesInv(P, ps) && q != pid
    ensures var r := DropSkipping(ps, (g: Page) => g.key.pid == pid);
      && PagesInv(P, r)
      && (forall g :: g in ps && g.key.pid != pid ==> g in r)
      && TallyOf(r, q) == TallyOf(ps, q)
  {
    hide PageInv, TallyPage;
    var mine := (g: Page) => g.key.pid == pid;
    if ps == [] {
    } else if ps[0].key.pid != pid {
      DropKeeps(P, ps[1..], pid, q);
      DropCons(P, ps[0], ps[1..], DropSkipping(ps[1..], mine), q);
    } else {
      TallyOther(ps[0], q);
      if |ps| > 1 {
        DropKeeps(P, ps[2..], pid, q);
        DropCons(P, ps[1], ps[2..], DropSkipping(ps[2..], mine), q);
        assert ps[1..][1..] == ps[2..];
      }
    }
  }

  lemma TallyOther(g: Page, q: int)
    requires g.key.pid != q
    ensures TallyPage(g, q) == Tally(0, 0, 0)
  {
  }

  lemma DropCons(P: nat, g: Page, rest: seq<Page>, r: seq<Page>, q: int)
    requires PagesInv(P, r) && PageInv(P, g)
    requires forall h <- r :: h in rest
    requires forall j :: 0 <= j < |rest| ==> rest[j].key != g.key
    requires TallyOf(r, q) == TallyOf(rest, q)
    ensures PagesInv(P, [g] + r)
    ensures TallyOf([g] + r, q) == TallyPage(g, q).Plus(TallyOf(rest, q))
  {
    hide PageInv, TallyPage;
    assert ([g] + r)[1..] == r;
    forall j | 0 <= j < |r|
      ensures r[j].key != g.key
    {
      assert r[j] in rest;
    }
  }

  /** The end of a process leaves every other process's heap as it was, whatever
      entries of its own the removal loop misses. */
  lemma FinishCorrect(cfg: Config, s: State, pid: int)
    requires Inv(cfg, s) && pid in s.procs
    ensures Inv(cfg, Finish(s, pid))
    ensures forall c: Key :: c.pid != pid ==>
              Contents(cfg.pageSize, Finish(s, pid).pages, c) == Contents(cfg.pageSize, s.pages, c)
  {
    hide TallyOf, PageInv;
    var P := cfg.pageSize;
    var t := Finish(s, pid);
    DropKeeps(P, s.pages, pid, pid + 1);
    forall j | 0 <= j < |t.pages|
      ensures exists i :: 0 <= i < |s.pages| && s.pages[i] == t.pages[j]
    {
      assert t.pages[j] in s.pages;
    }
    forall q | q in t.procs
      ensures Linked(cfg, t, q)
    {
      DropKeeps(P, s.pages, pid, q);
      assert Linked(cfg, s, q);
    }
    forall c: Key | c.pid != pid
      ensures Contents(P, t.pages, c) == Contents(P, s.pages, c)
    {
      if g :| g in s.pages && g.key == c {
        assert g in t.pages;
        ContentsOf(P, s.pages, g);
        ContentsOf(P, t.pages, g);
      } else {
        assert forall j :: 0 <= j < |t.pages| ==> t.pages[j].key != c;
      }
    }
  }

  /** The end of a process clears all its entries iff no two of them are neighbours in
      listaAdmHeap. */
  lemma FinishClearsIff(s: State, pid: int)
    ensures (forall g <- Finish(s, pid).pages :: g.key.pid != pid)
       <==> (forall i :: 0 <= i < |s.pages| - 1 ==> !(s.pages[i].key.pid == pid && s.pages[i + 1].key.pid == pid))
  {
    var mine := (g: Page) => g.key.pid == pid;
    DropsAllIff(s.pages, mine);
    assert forall i :: 0 <= i < |s.pages| - 1 ==>
        (mine(s.pages[i]) && mine(s.pages[i + 1]) <==> s.pages[i].key.pid == pid && s.pages[i + 1].key.pid == pid);
  }

  lemma StartInv(cfg: Config, s: State, pid: int, codePages: nat)
    requires Inv(cfg, s) && pid !in s.started
    ensures Inv(cfg, Start(cfg, s, pid, codePages))
  {
    hide PageInv, TallyOf;
    var t := Start(cfg, s, pid, codePages);
    NoTally(s.pages, pid);
    forall q | q in t.procs
      ensures Linked(cfg, t, q)
    {
      if q != pid {
        StillLinked(cfg, s, t, q);
      }
    }
  }

  lemma {:induction false} NoTally(ps: seq<Page>, pid: int)
    requires forall j :: 0 <= j < |ps| ==> ps[j].key.pid != pid
    ensures TallyOf(ps, pid) == Tally(0, 0, 0)
  {
    hide TallyPage;
    if ps != [] {
      TallyOther(ps[0], pid);
      NoTally(ps[1..], pid);
    }
  }

  // ----- every run -----

  /** Every step keeps the heap well formed and the books straight. */
  lemma StepInv(cfg: Config, s: State, e: Event)
    requires Inv(cfg, s) && Enabled(cfg, s, e)
    ensures Inv(cfg, Step(cfg, s, e))
  {
    hide Linked, PageInv, DistinctKeys;
    match e
    case EvStart(pid, codePages) => StartInv(cfg, s, pid, codePages);
    case EvAllocate(pid, size, grant) => AllocateCorrect(cfg, s, pid, size, grant);
    case EvRelease(pid, page, off) => ReleaseCorrect(cfg, s, Key(pid, page), off);
    case EvStore(_, _, _, _, _) => StoreCorrect(cfg, s, e);
    case EvFinish(pid) => FinishCorrect(cfg, s, pid);
  }

  /** A sequence of requests each of which respects its caller's obligations. */
  ghost predicate Legal(cfg: Config, s: State, es: seq<Event>)
    requires Inv(cfg, s)
    decreases es
  {
    es == [] || (Enabled(cfg, s, es[0]) && (StepInv(cfg, s, es[0]); Legal(cfg, Step(cfg, s, es[0]), es[1..])))
  }

  ghost function After(cfg: Config, s: State, es: seq<Event>): (t: State)
    requires Inv(cfg, s) && Legal(cfg, s, es)
    ensures Inv(cfg, t)
    decreases es
  {
    if es == [] then s
    else
      StepInv(cfg, s, es[0]);
      After(cfg, Step(cfg, s, es[0]), es[1..])
  }

  /** A run from a kernel that has just started. */
  ghost predicate LegalRun(cfg: Config, es: seq<Event>)
    requires ConfigOk(cfg)
  {
    EmptyInv(cfg);
    Legal(cfg, EMPTY, es)
  }

  ghost function Reached(cfg: Config, es: seq<Event>): (t: State)
    requires ConfigOk(cfg) && LegalRun(cfg, es)
    ensures Inv(cfg, t)
  {
    EmptyInv(cfg);
    After(cfg, EMPTY, es)
  }

  /** In every reachable state the headers tile each page from 0 to its end, there are at
      least two of them, and sizeDisponible is the exact free total. */
  lemma ReachableWellFormed(cfg: Config, es: seq<Event>)
    requires ConfigOk(cfg) && LegalRun(cfg, es)
    ensures forall g <- Reached(cfg, es).pages ::
              && Lays(g.bytes, 0, g.blocks) && Span(g.blocks) == |g.bytes| == cfg.pageSize
              && |g.blocks| >= 2
              && g.available == FreeBytes(g.blocks)
  {
    var t := Reached(cfg, es);
    forall g | g in t.pages
      ensures PageInv(cfg.pageSize, g)
    {
      var j :| 0 <= j < |t.pages| && t.pages[j] == g;
    }
  }

  /** A request that names pointer (key, off) in order to end or change it. */
  predicate Touches(e: Event, key: Key, off: int) {
    match e
    case EvRelease(pid, page, o) => Key(pid, page) == key && o == off
    case EvStore(pid, page, o, _, _) => Key(pid, page) == key && o == off
    case EvFinish(pid) => pid == key.pid
    case _ => false
  }

  lemma StepIsolated(cfg: Config, s: State, e: Event, key: Key, off: int)
    requires Inv(cfg, s) && Enabled(cfg, s, e)
    requires Owned(cfg, s, key, off) && !Touches(e, key, off)
    ensures Inv(cfg, Step(cfg, s, e)) && Owned(cfg, Step(cfg, s, e), key, off)
    ensures Contents(cfg.pageSize, Step(cfg, s, e).pages, key)[off] == Contents(cfg.pageSize, s.pages, key)[off]
  {
    hide Linked, PageInv, DistinctKeys, Inv;
    match e
    case EvStart(pid, codePages) => StartInv(cfg, s, pid, codePages);
    case EvAllocate(pid, size, grant) => AllocateCorrect(cfg, s, pid, size, grant);
    case EvRelease(pid, page, o) => ReleaseCorrect(cfg, s, Key(pid, page), o);
    case EvStore(_, _, _, _, _) => StoreCorrect(cfg, s, e);
    case EvFinish(pid) => FinishCorrect(cfg, s, pid);
  }

  /** Isolation over every run: whatever is allocated, compacted, freed, stored or ended
      meanwhile, a live payload that no request names keeps every byte at its offset. */
  lemma {:induction false} RunIsolated(cfg: Config, s: State, es: seq<Event>, key: Key, off: int)
    requires Inv(cfg, s) && Legal(cfg, s, es)
    requires Owned(cfg, s, key, off)
    requires forall e <- es :: !Touches(e, key, off)
    ensures Owned(cfg, After(cfg, s, es), key, off)
    ensures Contents(cfg.pageSize, After(cfg, s, es).pages, key)[off] == Contents(cfg.pageSize, s.pages, key)[off]
    decreases es
  {
    if es != [] {
      StepIsolated(cfg, s, es[0], key, off);
      RunIsolated(cfg, Step(cfg, s, es[0]), es[1..], key, off);
    }
  }

  /** In every reachable state two live payloads of a page are at least a header apart
      and lie inside the page. */
  lemma LivePayloadsApart(cfg: Config, s: State, key: Key, j: int, k: int)
    requires Inv(cfg, s) && Owned(cfg, s, key, j) && Owned(cfg, s, key, k) && j < k
    ensures META <= j
    ensures j + |Contents(cfg.pageSize, s.pages, key)[j]| + META <= k
    ensures k + |Contents(cfg.pageSize, s.pages, key)[k]| <= cfg.pageSize
  {
    OwnedBlock(cfg, s, key, j);
    var g := s.pages[PageIndex(s.pages, key)];
    LiveDisjoint(g.bytes, 0, g.blocks, j, k);
    LiveKeys(g.bytes, 0, g.blocks);
  }

  /** The leak report at the end of a process (cantAlocar - cantLiberar, and the bytes)
      exceeds what is still live by the requests that were refused for lack of a page: each
      was charged although nothing was allocated. */
  lemma LeakReportIff(cfg: Config, s: State, pid: int)
    requires Inv(cfg, s) && pid in s.procs
    ensures var a, t := s.procs[pid].account, TallyOf(s.pages, pid);
      && a.heapPages == t.pages
      && a.allocs - a.frees == t.blocks + s.procs[pid].refused
      && a.allocBytes - a.freeBytes == t.bytes + s.procs[pid].refusedBytes
      && (a.allocs - a.frees == t.blocks ==> a.allocBytes - a.freeBytes == t.bytes)
  {
    hide PagesInv, TallyOf, NextPage;
    assert Linked(cfg, s, pid);
  }

  /** The sizes of the requests of pid that a run refuses for lack of a page. */
  ghost function RefusedSizes(cfg: Config, s: State, es: seq<Event>, pid: int): seq<nat>
    requires Inv(cfg, s) && Legal(cfg, s, es)
    decreases es
  {
    if es == [] then []
    else
      StepInv(cfg, s, es[0]);
      (if es[0].EvAllocate? && es[0].pid == pid && LacksPage(cfg, s, pid, es[0].size, es[0].grant)
       then [es[0].size] else [])
      + RefusedSizes(cfg, Step(cfg, s, es[0]), es[1..], pid)
  }

  function Sum(ns: seq<nat>): nat {
    if ns == [] then 0 else ns[0] + Sum(ns[1..])
  }

  lemma {:induction false} SumZero(ns: seq<nat>)
    ensures Sum(ns) == 0 <==> forall i :: 0 <= i < |ns| ==> ns[i] == 0
  {
    if ns != [] {
      SumZero(ns[1..]);
      if forall i :: 0 <= i < |ns[1..]| ==> ns[1..][i] == 0 {
        assert forall i :: 0 < i < |ns| ==> ns[i] == ns[1..][i - 1];
      }
      assert (forall i :: 0 <= i < |ns| ==> ns[i] == 0) ==> forall i :: 0 <= i < |ns[1..]| ==> ns[1..][i] == ns[i + 1];
    }
  }

  lemma RefusedStep(cfg: Config, s: State, e: Event, pid: int)
    requires Inv(cfg, s) && Enabled(cfg, s, e) && pid in s.procs && e != EvFinish(pid)
    ensures var t := Step(cfg, s, e);
      var refused := e.EvAllocate? && e.pid == pid && LacksPage(cfg, s, pid, e.size, e.grant);
      && pid in t.procs
      && t.procs[pid].refused == s.procs[pid].refused + (if refused then 1 else 0)
      && t.procs[pid].refusedBytes == s.procs[pid].refusedBytes + (if refused then e.size else 0)
  {
    hide PagesInv, Linked, LacksPage, NoFit, Search;
    assert pid in s.started;
    if e.EvAllocate? && e.pid == pid {
      NoPageIff(cfg, s, pid, e.size, e.grant);
    }
  }

  /** Over every run of a process the leak report exceeds what is live by exactly the
      refusals of the run, in blocks and in bytes. */
  lemma {:induction false} RunLeakReport(cfg: Config, s: State, es: seq<Event>, pid: int)
    requires Inv(cfg, s) && Legal(cfg, s, es) && pid in s.procs
    requires forall i :: 0 <= i < |es| ==> es[i] != EvFinish(pid)
    ensures pid in After(cfg, s, es).procs
    ensures var t, sizes := After(cfg, s, es), RefusedSizes(cfg, s, es, pid);
      var a, live := t.procs[pid].account, TallyOf(t.pages, pid);
      && a.allocs - a.frees == live.blocks + s.procs[pid].refused + |sizes|
      && a.allocBytes - a.freeBytes == live.bytes + s.procs[pid].refusedBytes + Sum(sizes)
    decreases es
  {
    hide Linked, PagesInv, LacksPage, TallyOf, Step;
    if es == [] {
      LeakReportIff(cfg, s, pid);
    } else {
      RefusedStep(cfg, s, es[0], pid);
      StepInv(cfg, s, es[0]);
      RunLeakReport(cfg, Step(cfg, s, es[0]), es[1..], pid);
      var rest := RefusedSizes(cfg, Step(cfg, s, es[0]), es[1..], pid);
      assert es[0].EvAllocate? ==> ([es[0].size] + rest)[1..] == rest;
      assert [] + rest == rest;
    }
  }

  /** From its start on, the report of a process is exact in blocks iff the run refused it
      nothing for lack of a page, and exact in bytes iff it refused only requests of size
      0. */
  lemma LeakReportExactIff(cfg: Config, s: State, pid: int, codePages: nat, es: seq<Event>)
    requires Inv(cfg, s) && pid !in s.started
    requires (StartInv(cfg, s, pid, codePages); Legal(cfg, Start(cfg, s, pid, codePages), es))
    requires forall i :: 0 <= i < |es| ==> es[i] != EvFinish(pid)
    ensures (StartInv(cfg, s, pid, codePages); pid in After(cfg, Start(cfg, s, pid, codePages), es).procs)
    ensures (StartInv(cfg, s, pid, codePages);
      var o := Start(cfg, s, pid, codePages);
      var t, sizes := After(cfg, o, es), RefusedSizes(cfg, o, es, pid);
      var a, live := t.procs[pid].account, TallyOf(t.pages, pid);
      && (a.allocs - a.frees == live.blocks <==> sizes == [])
      && (a.allocBytes - a.freeBytes == live.bytes <==> forall i :: 0 <= i < |sizes| ==> sizes[i] == 0))
  {
    hide Linked, PagesInv, LacksPage, TallyOf, RefusedSizes;
    StartInv(cfg, s, pid, codePages);
    var o := Start(cfg, s, pid, codePages);
    RunLeakReport(cfg, o, es, pid);
    SumZero(RefusedSizes(cfg, o, es, pid));
  }

  /** Kernel and Memory agree: the page number the kernel computes for the next heap page
      is the number of pages the memory server has given the process, after any run and
      whatever was refused on the way. */
  lemma PageNumbersAgree(cfg: Config, s: State, es: seq<Event>, pid: int)
    requires Inv(cfg, s) && Legal(cfg, s, es) && pid in After(cfg, s, es).procs
    ensures var t := After(cfg, s, es);
      && pid in t.granted
      && NextPage(cfg, t.procs[pid]) == t.granted[pid]
      && (forall g <- t.pages :: g.key.pid == pid ==> g.key.page < t.granted[pid])
  {
    var t := After(cfg, s, es);
    assert Linked(cfg, t, pid);
    forall g | g in t.pages && g.key.pid == pid
      ensures g.key.page < t.granted[pid]
    {
      var j :| 0 <= j < |t.pages| && t.pages[j] == g;
    }
  }
}
