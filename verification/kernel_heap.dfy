/** The kernel's heap routines: they hold no page themselves, every header goes through
    the memory server, and each request does to the heap what HeapRuns says. */
module KernelHeap {
  import opened Bytes
  import opened Lists
  import opened HeapPage
  import opened PageOps
  import opened Heap
  import opened HeapRuns
  import opened HeapTheorems
  import MT = MemoryTable
  import MS = MemorySpec
  import MTh = MemoryTheorems
  import opened MemoryServer

  /** t_adminBloqueHeap. */
  datatype Admin = Admin(page: int, pid: int, available: int)

  /** The memory server holds page p as the heap believes it. */
  ghost predicate Holds(g: MT.Geometry, c: MS.Core, p: Page)
    requires MS.CoreInv(g, c)
  {
    && p.key.pid >= 1 && p.key.page >= 0
    && MS.Mapped(c, p.key.pid, p.key.page)
    && MS.PageBytes(g, c, p.key.pid, p.key.page) == p.bytes
  }

  ghost predicate AllHold(g: MT.Geometry, c: MS.Core, ps: seq<Page>, live: set<int>)
    requires MS.CoreInv(g, c)
  {
    forall i :: 0 <= i < |ps| && ps[i].key.pid in live ==> Holds(g, c, ps[i])
  }

  /** Code and stack pages: the memory server holds them with these bytes, and none of them
      is a heap page. */
  ghost predicate OwnHeld(g: MT.Geometry, c: MS.Core, own: map<Key, seq<Byte>>)
    requires MS.CoreInv(g, c)
  {
    forall key :: key in own ==>
      && key.pid >= 1 && key.page >= 0
      && MS.Mapped(c, key.pid, key.page)
      && MS.PageBytes(g, c, key.pid, key.page) == own[key]
  }

  ghost predicate NotOwn(ps: seq<Page>, own: map<Key, seq<Byte>>) {
    forall i :: 0 <= i < |ps| ==> ps[i].key !in own
  }

  /** A write to page i of the list leaves the other pages held as they were. */
  lemma WriteHolds(g: MT.Geometry, c: MS.Core, ps: seq<Page>, live: set<int>, own: map<Key, seq<Byte>>,
                   i: nat, off: nat, d: seq<Byte>)
    requires MS.CoreInv(g, c) && AllHold(g, c, ps, live) && DistinctKeys(ps)
    requires OwnHeld(g, c, own) && NotOwn(ps, own)
    requires i < |ps| && ps[i].key.pid in live && off + |d| <= g.frameSize
    ensures Holds(g, c, ps[i])
    ensures var c' := MS.CoreWrite(g, c, ps[i].key.pid, ps[i].key.page, off, d).0;
      && MS.CoreInv(g, c') && c'.table == c.table
      && AllHold(g, c', ps[i := ps[i].(bytes := Paste(ps[i].bytes, off, d))], live)
      && OwnHeld(g, c', own)
  {
    hide MS.CoreInv, MS.CoreWrite, MS.PageBytes;
    assert Holds(g, c, ps[i]);
    MTh.CoreWriteCorrect(g, c, ps[i].key.pid, ps[i].key.page, off, d);
    var c' := MS.CoreWrite(g, c, ps[i].key.pid, ps[i].key.page, off, d).0;
    forall key | key in own
      ensures MS.Mapped(c', key.pid, key.page) && MS.PageBytes(g, c', key.pid, key.page) == own[key]
    {
      assert key != ps[i].key;
    }
  }

  /** A write to a code or stack page leaves the heap pages and the others alone. */
  lemma WriteOwnHolds(g: MT.Geometry, c: MS.Core, ps: seq<Page>, live: set<int>, own: map<Key, seq<Byte>>,
                      key: Key, off: nat, d: seq<Byte>)
    requires MS.CoreInv(g, c) && AllHold(g, c, ps, live)
    requires OwnHeld(g, c, own) && NotOwn(ps, own)
    requires key in own && off + |d| <= g.frameSize
    ensures |own[key]| == g.frameSize
    ensures var c' := MS.CoreWrite(g, c, key.pid, key.page, off, d).0;
      && MS.CoreInv(g, c') && c'.table == c.table
      && AllHold(g, c', ps, live) && OwnHeld(g, c', own[key := Paste(own[key], off, d)])
  {
    hide MS.CoreInv, MS.CoreWrite, MS.PageBytes;
    MTh.CoreWriteCorrect(g, c, key.pid, key.page, off, d);
    var c' := MS.CoreWrite(g, c, key.pid, key.page, off, d).0;
    forall i | 0 <= i < |ps| && ps[i].key.pid in live
      ensures Holds(g, c', ps[i])
    {
      assert Holds(g, c, ps[i]) && ps[i].key != key;
    }
  }

  /** Pages that memory keeps mapped with the same bytes stay held. */
  lemma StillHeld(g: MT.Geometry, c: MS.Core, e: MS.Core, ps: seq<Page>, live: set<int>, own: map<Key, seq<Byte>>)
    requires MS.CoreInv(g, c) && MS.CoreInv(g, e) && AllHold(g, c, ps, live) && OwnHeld(g, c, own)
    requires forall q, k :: q >= 1 && MS.Mapped(c, q, k) ==>
               MS.Mapped(e, q, k) && MS.PageBytes(g, e, q, k) == MS.PageBytes(g, c, q, k)
    ensures AllHold(g, e, ps, live) && OwnHeld(g, e, own)
  {
    hide MS.CoreInv, MS.PageBytes, MS.Mapped;
    forall i | 0 <= i < |ps| && ps[i].key.pid in live
      ensures Holds(g, e, ps[i])
    {
      assert Holds(g, c, ps[i]);
    }
  }

  /** own is made of the pages below the heap of each process that runs. */
  ghost predicate OwnIs(cfg: Config, s: State, own: map<Key, seq<Byte>>) {
    forall key: Key :: key in own <==>
      key.pid in s.procs && 0 <= key.page < s.procs[key.pid].codePages + cfg.stackPages
  }

  lemma SameKeysOwn(cfg: Config, s: State, was: map<Key, seq<Byte>>, now: map<Key, seq<Byte>>)
    requires OwnIs(cfg, s, was) && was.Keys == now.Keys
    ensures OwnIs(cfg, s, now)
  {
    assert forall key: Key :: key in now <==> key in was.Keys;
  }

  lemma OwnStays(cfg: Config, s: State, t: State, own: map<Key, seq<Byte>>)
    requires OwnIs(cfg, s, own) && t.procs.Keys == s.procs.Keys
    requires forall pid :: pid in s.procs ==> t.procs[pid].codePages == s.procs[pid].codePages
    ensures OwnIs(cfg, t, own)
  {
  }

  /** The pages a process is admitted with, as the memory server holds them. */
  ghost function NewPages(g: MT.Geometry, c: MS.Core, pid: int, n: nat): (m: map<Key, seq<Byte>>)
    requires MS.CoreInv(g, c) && pid >= 1 && forall k :: 0 <= k < n ==> MS.Mapped(c, pid, k)
    ensures forall key: Key :: key in m <==> key.pid == pid && 0 <= key.page < n
    ensures forall key: Key :: key in m ==>
              MS.Mapped(c, key.pid, key.page) && m[key] == MS.PageBytes(g, c, key.pid, key.page)
  {
    map k | 0 <= k < n :: Key(pid, k) := MS.PageBytes(g, c, pid, k)
  }

  lemma Adopted(g: MT.Geometry, c: MS.Core, ps: seq<Page>, own: map<Key, seq<Byte>>, pid: int, n: nat)
    requires MS.CoreInv(g, c) && pid >= 1 && forall k :: 0 <= k < n ==> MS.Mapped(c, pid, k)
    requires OwnHeld(g, c, own) && NotOwn(ps, own)
    requires forall i :: 0 <= i < |ps| ==> ps[i].key.pid != pid
    ensures OwnHeld(g, c, own + NewPages(g, c, pid, n)) && NotOwn(ps, own + NewPages(g, c, pid, n))
  {
    hide MS.CoreInv, MS.PageBytes, MS.Mapped, NewPages;
  }

  ghost function Without(own: map<Key, seq<Byte>>, pid: int): (m: map<Key, seq<Byte>>)
    ensures forall key :: key in m <==> key in own && key.pid != pid
    ensures forall key :: key in m ==> m[key] == own[key]
  {
    map key | key in own && key.pid != pid :: own[key]
  }

  /** What the kernel keeps of a process, and how many pages Memory has given it. */
  ghost predicate ProcessIs(s: State, accounts: map<int, Account>, codePages: map<int, nat>, t: seq<MT.Entry>, pid: int) {
    && pid in s.procs && pid in s.granted && 1 <= pid && IsInt(pid)
    && pid in accounts && accounts[pid] == s.procs[pid].account
    && pid in codePages && codePages[pid] == s.procs[pid].codePages
    && MT.Count(t, pid) == s.granted[pid]
  }

  ghost predicate Booked(s: State, accounts: map<int, Account>, codePages: map<int, nat>, t: seq<MT.Entry>) {
    && (forall pid :: pid in s.procs ==> ProcessIs(s, accounts, codePages, t, pid))
    && (forall pid :: pid >= 1 && pid !in s.procs ==> MT.Count(t, pid) == 0)
  }

  lemma BookedFor(s: State, accounts: map<int, Account>, codePages: map<int, nat>, t: seq<MT.Entry>, pid: int)
    requires Booked(s, accounts, codePages, t) && pid in s.procs
    ensures ProcessIs(s, accounts, codePages, t, pid)
  {
  }

  lemma NewPid(cfg: Config, s: State, accounts: map<int, Account>, codePages: map<int, nat>, t: seq<MT.Entry>,
               own: map<Key, seq<Byte>>, pid: int)
    requires Inv(cfg, s) && Booked(s, accounts, codePages, t) && OwnIs(cfg, s, own)
    requires pid >= 1 && pid !in s.started
    ensures pid !in s.procs && MT.Count(t, pid) == 0
    ensures forall i :: 0 <= i < |s.pages| ==> s.pages[i].key.pid != pid
    ensures forall key :: key in own ==> key.pid != pid
  {
    hide PagesInv, Linked, MT.Count;
  }

  lemma StartBooked(cfg: Config, s: State, accounts: map<int, Account>, codePages: map<int, nat>, t: seq<MT.Entry>,
                    t': seq<MT.Entry>, own: map<Key, seq<Byte>>, pid: int, code: nat)
    requires Booked(s, accounts, codePages, t) && OwnIs(cfg, s, own)
    requires pid >= 1 && IsInt(pid) && pid !in s.procs && MT.Count(t, pid) == 0
    requires forall q :: q >= 1 ==>
               MT.Count(t', q) == MT.Count(t, q) + (if q == pid then code + cfg.stackPages else 0)
    ensures Booked(Start(cfg, s, pid, code), accounts[pid := Account(0, 0, 0, 0, 0, 0)], codePages[pid := code], t')
    ensures forall more: map<Key, seq<Byte>> ::
              (forall key: Key :: key in more <==>
                 key in own || (key.pid == pid && 0 <= key.page < code + cfg.stackPages))
              ==> OwnIs(cfg, Start(cfg, s, pid, code), more)
  {
    hide MT.Count;
    var u, now, pages := Start(cfg, s, pid, code), accounts[pid := Account(0, 0, 0, 0, 0, 0)], codePages[pid := code];
    forall q | q in u.procs
      ensures ProcessIs(u, now, pages, t', q)
    {
      assert q == pid || ProcessIs(s, accounts, codePages, t, q);
    }
    assert forall key: Key :: key in own ==> key.pid != pid;
  }

  /** Only one process's record and page count have moved. */
  lemma OneMoved(s: State, accounts: map<int, Account>, codePages: map<int, nat>, t: seq<MT.Entry>,
                 u: State, now: map<int, Account>, t': seq<MT.Entry>, pid: int)
    requires Booked(s, accounts, codePages, t)
    requires u.procs.Keys == s.procs.Keys && ProcessIs(u, now, codePages, t', pid)
    requires forall q :: q != pid && q in s.procs ==> u.procs[q] == s.procs[q]
    requires forall q :: q != pid && q in s.granted ==> q in u.granted && u.granted[q] == s.granted[q]
    requires forall q :: q != pid && q in accounts ==> q in now && now[q] == accounts[q]
    requires forall q :: q >= 1 && q != pid ==> MT.Count(t', q) == MT.Count(t, q)
    ensures Booked(u, now, codePages, t')
  {
    hide MT.Count;
    forall q | q in u.procs
      ensures ProcessIs(u, now, codePages, t', q)
    {
      assert ProcessIs(s, accounts, codePages, t, q) || q == pid;
    }
    assert pid in s.procs.Keys;
  }

  class Kernel {
    const cfg: Config
    const mem: Memory
    /** listaAdmHeap. */
    var admin: seq<Admin>
    /** listaContable, by pid. */
    var accounts: map<int, Account>
    /** cantidadPaginasCodigo of the processes that run. */
    var codePages: map<int, nat>
    ghost var st: State
    /** The code and stack pages of the processes that run, and their bytes. */
    ghost var own: map<Key, seq<Byte>>

    /** Memory holds the heap pages ps and, apart from them, every code and stack page. */
    ghost predicate MemHolds(ps: seq<Page>, live: set<int>)
      reads this`own, mem, mem.memory, mem.cache, mem.uses
    {
      MemHoldsWith(ps, live, own)
    }

    ghost predicate MemHoldsWith(ps: seq<Page>, live: set<int>, pages: map<Key, seq<Byte>>)
      reads mem, mem.memory, mem.cache, mem.uses
    {
      && mem.Valid()
      && mem.st.geo.frameSize == cfg.pageSize
      && AllHold(mem.st.geo, mem.CoreNow(), ps, live)
      && OwnHeld(mem.st.geo, mem.CoreNow(), pages) && NotOwn(ps, pages)
    }


    /** The page table of the memory server: writes to pages leave it alone. */
    ghost function TableNow(): seq<MT.Entry>
      reads mem, mem.memory, mem.cache, mem.uses
    {
      if mem.Shape() then mem.CoreNow().table else []
    }

    ghost predicate Has(pid: int, page: int)
      reads mem, mem.memory, mem.cache, mem.uses
    {
      mem.Shape() && MS.Mapped(mem.CoreNow(), pid, page)
    }

    ghost predicate AdminIs(ps: seq<Page>)
      reads this`admin
    {
      && |admin| == |ps|
      && (forall i :: 0 <= i < |ps| ==> admin[i] == Admin(ps[i].key.page, ps[i].key.pid, ps[i].available))
    }

    ghost predicate Valid()
      reads this, mem, mem.memory, mem.cache, mem.uses
    {
      && Inv(cfg, st)
      && MemHolds(st.pages, st.procs.Keys) && OwnIs(cfg, st, own)
      && AdminIs(st.pages)
      && Booked(st, accounts, codePages, TableNow())
    }

    constructor (settings: Config, memory: Memory)
      requires ConfigOk(settings) && memory.Valid() && memory.st.geo.frameSize == settings.pageSize
      requires forall pid :: pid >= 1 ==> MT.Count(memory.CoreNow().table, pid) == 0
      ensures Valid() && cfg == settings && mem == memory && st == EMPTY
    {
      cfg, mem := settings, memory;
      admin, accounts, codePages := [], map[], map[];
      st, own := EMPTY, map[];
      new;
      EmptyInv(settings);
    }

    // ----- through the memory server -----

    /** leerDeMemoria of one header. */
    method ReadHeader(pid: int, page: int, off: nat, ghost ps: seq<Page>, ghost live: set<int>, ghost i: nat)
      returns (mark: int, size: int)
      requires MemHolds(ps, live) && i < |ps| && ps[i].key == Key(pid, page) && pid in live
      requires off + META <= cfg.pageSize
      modifies mem, mem.cache, mem.uses
      ensures MemHolds(ps, live) && TableNow() == old(TableNow())
      ensures |ps[i].bytes| == cfg.pageSize
      ensures mark == MarkAt(ps[i].bytes, off) && size == SizeAt(ps[i].bytes, off)
    {
      assert Holds(mem.st.geo, mem.CoreNow(), ps[i]);
      MTh.ReadStep(mem.st, mem.Now(), pid, page, off, META);
      MTh.RawWithin(mem.st, mem.Now(), pid, page, off, META);
      var code, b := mem.RequestBytes(pid, page, off, META);
      mark := DecodeInt(b[..INT_BYTES]);
      size := DecodeInt(b[INT_BYTES..]);
    }

    /** escribirEnMemoria of one header. */
    method WriteHeader(pid: int, page: int, off: nat, mark: int, size: int,
                       ghost ps: seq<Page>, ghost live: set<int>, ghost i: nat, ghost b: Block)
      requires MemHolds(ps, live) && DistinctKeys(ps)
      requires i < |ps| && ps[i].key == Key(pid, page) && pid in live
      requires IsInt(size) && b.size == size && Mark(b) == mark && off + META <= cfg.pageSize
      modifies mem, mem.memory, mem.cache, mem.uses
      ensures |ps[i].bytes| == cfg.pageSize
      ensures MemHolds(ps[i := ps[i].(bytes := Paste(ps[i].bytes, off, Meta(b)))], live)
      ensures TableNow() == old(TableNow())
    {
      hide MemHolds, TableNow;
      WritePage(pid, page, off, EncodeInt(mark) + EncodeInt(size), ps, live, i);
    }

    /** escribirEnMemoria, and a CPU's own store: one page changes. */
    method WritePage(pid: int, page: int, off: nat, d: seq<Byte>,
                     ghost ps: seq<Page>, ghost live: set<int>, ghost i: nat)
      requires MemHolds(ps, live) && DistinctKeys(ps)
      requires i < |ps| && ps[i].key == Key(pid, page) && pid in live && off + |d| <= cfg.pageSize
      modifies mem, mem.memory, mem.cache, mem.uses
      ensures |ps[i].bytes| == cfg.pageSize
      ensures MemHolds(ps[i := ps[i].(bytes := Paste(ps[i].bytes, off, d))], live)
      ensures TableNow() == old(TableNow())
    {
      hide MS.CacheInv, MS.CoreWrite;
      assert Holds(mem.st.geo, mem.CoreNow(), ps[i]);
      MTh.WriteStep(mem.st, mem.Now(), pid, page, off, d);
      WriteHolds(mem.st.geo, mem.CoreNow(), ps, live, own, i, off, d);
      var code := mem.StoreBytes(pid, page, off, d);
    }

    // ----- the administrative list -----

    /** The loop that looks for a page's entry and changes its sizeDisponible. */
    method AddAvailable(pid: int, page: int, delta: int, ghost ps: seq<Page>, ghost i: nat)
      requires AdminIs(ps) && DistinctKeys(ps)
      requires i < |ps| && ps[i].key == Key(pid, page)
      modifies this`admin
      ensures AdminIs(ps[i := ps[i].(available := ps[i].available + delta)])
    {
      var j := 0;
      while j < |admin|
        invariant 0 <= j <= i && AdminIs(ps)
      {
        if admin[j].page == page && admin[j].pid == pid {
          assert j == i;
          admin := admin[j := Admin(page, pid, admin[j].available + delta)];
          break;
        }
        j := j + 1;
      }
    }

    /** compactarPaginaHeap: every header read lies in the page, because a page between
        requests has at least two blocks. */
    method CompactHeapPage(pid: int, page: int, ghost ps: seq<Page>, ghost live: set<int>, ghost i: nat)
      requires MemHolds(ps, live) && AdminIs(ps) && DistinctKeys(ps) && ConfigOk(cfg)
      requires i < |ps| && ps[i].key == Key(pid, page) && pid in live && PageInv(cfg.pageSize, ps[i])
      modifies mem, mem.memory, mem.cache, mem.uses, this`admin
      ensures MemHolds(ps[i := CompactPage(ps[i])], live) && AdminIs(ps[i := CompactPage(ps[i])])
      ensures TableNow() == old(TableNow())
    {
      hide MemHolds, TableNow, Walk, Compacting, CompactPageBytes, CompactPageBlocks, CompactPage;
      hide Paste, Meta, Tiled, Mark;
      var P := cfg.pageSize;
      ghost var g := ps[i];
      ghost var qs, done, a, r, first := ps, [], g.blocks[0], g.blocks[1..], true;
      CompactStart(P, g);
      var offset, size, freed := 0, 0, 0;
      while offset < P && offset + META + size < P - META
        invariant MemHolds(qs, live) && AdminIs(ps) && TableNow() == old(TableNow())
        invariant i < |qs| && qs == ps[i := g.(bytes := qs[i].bytes)]
        invariant offset >= 0 && (first ==> offset == 0)
        invariant Compacting(P, g, qs[i].bytes, done, offset, a, r, first)
        invariant freed == META * (|g.blocks| - |done| - 1 - |r|)
        invariant size == if first then 0 else a.size
        decreases |r|, first
      {
        Headers(P, g, qs[i].bytes, done, offset, a, r, first);
        var mark;
        mark, size := ReadHeader(pid, page, offset, qs, live, i);
        var nextMark, nextSize := ReadHeader(pid, page, offset + META + size, qs, live, i);
        CompactTurn(P, g, qs[i].bytes, done, offset, a, r, first);
        if mark == NOT_IN_USE && nextMark == NOT_IN_USE {
          freed := freed + META;
          size := size + META + nextSize;
          WriteHeader(pid, page, offset, mark, size, qs, live, i, Merge(a, r[0]));
          qs := qs[i := qs[i].(bytes := Paste(qs[i].bytes, offset, Meta(Merge(a, r[0]))))];
          a, r := Merge(a, r[0]), r[1..];
        } else {
          offset := offset + META + size;
          size := nextSize;
          done, a, r := done + [a], r[0], r[1..];
        }
        first := false;
      }
      CompactEnd(P, g, qs[i].bytes, done, offset, a, r, first);
      AddAvailable(pid, page, freed, ps, i);
      assert qs[i := qs[i].(bytes := qs[i].bytes)] == qs;
      ListsAgree(qs, live, ps[i := ps[i].(available := ps[i].available + freed)], ps[i := CompactPage(g)]);
    }

    /** The memory cares only about keys and bytes, the list only about keys and counters. */
    lemma ListsAgree(ms: seq<Page>, live: set<int>, as': seq<Page>, ps: seq<Page>)
      requires MemHolds(ms, live) && AdminIs(as') && |ms| == |as'| == |ps|
      requires forall j :: 0 <= j < |ps| ==> ps[j].key == ms[j].key == as'[j].key
      requires forall j :: 0 <= j < |ps| ==> ps[j].bytes == ms[j].bytes && ps[j].available == as'[j].available
      ensures MemHolds(ps, live) && AdminIs(ps)
    {
      assert forall j :: 0 <= j < |ps| && ps[j].key.pid in live ==> Holds(mem.st.geo, mem.CoreNow(), ms[j]);
    }

    /** paginaHeapBloqueSuficiente. */
    method FindFit(pid: int, page: int, size: nat, ghost ps: seq<Page>, ghost live: set<int>, ghost i: nat)
      returns (off: int)
      requires MemHolds(ps, live)
      requires i < |ps| && ps[i].key == Key(pid, page) && pid in live && Tiled(cfg.pageSize, ps[i])
      modifies mem, mem.cache, mem.uses
      ensures MemHolds(ps, live) && TableNow() == old(TableNow())
      ensures off == if FirstFit(ps[i].blocks, size) < 0 then -1 else HeaderAt(ps[i], FirstFit(ps[i].blocks, size))
    {
      hide MemHolds, TableNow, Tiled, Looking, FirstFit, HeaderAt, MarkAt, SizeAt;
      ghost var done, rest: seq<Block> := [], ps[i].blocks;
      LookStart(cfg.pageSize, ps[i], size);
      off := 0;
      while off < cfg.pageSize
        invariant MemHolds(ps, live) && TableNow() == old(TableNow())
        invariant off >= 0 && Looking(cfg.pageSize, ps[i], done, rest, off, size)
        decreases |rest|
      {
        LookTurn(cfg.pageSize, ps[i], done, rest, off, size);
        var mark, was := ReadHeader(pid, page, off, ps, live, i);
        if was >= size + META && mark == NOT_IN_USE {
          return;
        }
        off := off + META + was;
        done, rest := done + [rest[0]], rest[1..];
      }
      LookEnd(cfg.pageSize, ps[i], done, rest, off, size);
      off := -1;
    }

    /** reservarBloqueHeap: the block at off becomes one in use and, behind it, one free. */
    method ReserveBlock(pid: int, page: int, off: nat, size: nat,
                        ghost ps: seq<Page>, ghost live: set<int>, ghost i: nat, ghost k: nat)
      requires MemHolds(ps, live) && AdminIs(ps) && DistinctKeys(ps)
      requires i < |ps| && ps[i].key == Key(pid, page) && pid in live && Tiled(cfg.pageSize, ps[i])
      requires k < |ps[i].blocks| && ps[i].blocks[k].size >= size + META && off == HeaderAt(ps[i], k)
      modifies mem, mem.memory, mem.cache, mem.uses, this`admin
      ensures HeaderAt(ps[i], k) + META + ps[i].blocks[k].size <= |ps[i].bytes| && IsInt(|ps[i].bytes|)
      ensures MemHolds(ps[i := Carve(ps[i], k, size)], live) && AdminIs(ps[i := Carve(ps[i], k, size)])
      ensures TableNow() == old(TableNow())
    {
      hide MemHolds, TableNow, Lays, Span, FreeBytes, Paste, Meta;
      ghost var g := ps[i];
      HeaderFits(cfg.pageSize, g, k);
      var paid: int := size + META;
      AddAvailable(pid, page, -paid, ps, i);
      BlockHeader(cfg.pageSize, g, k);
      var mark, was := ReadHeader(pid, page, off, ps, live, i);
      ghost var b1, b2 := Block(true, size), Block(false, was - size - META);
      WriteHeader(pid, page, off, IN_USE, size, ps, live, i, b1);
      ghost var qs := ps[i := g.(bytes := Paste(g.bytes, off, Meta(b1)))];
      WriteHeader(pid, page, off + META + size, NOT_IN_USE, was - size - META, qs, live, i, b2);
      ghost var rs := qs[i := qs[i].(bytes := Paste(qs[i].bytes, off + META + size, Meta(b2)))];
      ListsAgree(rs, live, ps[i := g.(available := g.available - size - META)], ps[i := Carve(g, k, size)]);
    }

    lemma PageNumber(ps: seq<Page>, live: set<int>, i: nat)
      requires MemHolds(ps, live) && i < |ps| && ps[i].key.pid in live
      ensures ps[i].key.page >= 0 && ps[i].key.pid >= 1
    {
      assert Holds(mem.st.geo, mem.CoreNow(), ps[i]);
    }

    /** verificarEspacioLibreHeap. */
    method SearchPages(size: nat, pid: int, ghost ps: seq<Page>, ghost live: set<int>)
      returns (page: int, off: int, ghost cur: seq<Page>, ghost f: int)
      requires MemHolds(ps, live) && AdminIs(ps) && PagesInv(cfg.pageSize, ps) && ConfigOk(cfg)
      requires pid in live && size + 2 * META <= cfg.pageSize
      modifies mem, mem.memory, mem.cache, mem.uses, this`admin
      ensures TableNow() == old(TableNow())
      ensures (cur, f) == Search(cfg.pageSize, ps, 0, pid, size)
      ensures MemHolds(cur, live) && AdminIs(cur)
      ensures f < 0 ==> page == -1
      ensures 0 <= f ==> f < |cur| && cur[f].key == Key(pid, page) && page >= 0
      ensures 0 <= f ==> FirstFit(cur[f].blocks, size) >= 0
      ensures 0 <= f ==> off == HeaderAt(cur[f], FirstFit(cur[f].blocks, size))
    {
      hide MemHolds, TableNow, Searching, Search, FirstFit, CompactPage, DistinctKeys, PageInv, Tiled, Span, HeaderAt;
      var P := cfg.pageSize;
      cur := ps;
      var i := 0;
      page, off, f := -1, -1, -1;
      SearchBegin(P, ps, pid, size);
      while i < |admin|
        invariant 0 <= i <= |ps| == |cur| && MemHolds(cur, live) && AdminIs(cur) && TableNow() == old(TableNow())
        invariant Searching(P, ps, i, pid, size, cur)
        invariant page == -1
      {
        SearchTurn(P, ps, i, pid, size, cur);
        if admin[i].available >= size + META && admin[i].pid == pid {
          page := admin[i].page;
          CompactHeapPage(pid, page, cur, live, i);
          cur := cur[i := CompactPage(cur[i])];
          off := FindFit(pid, page, size, cur, live, i);
          if off >= 0 {
            f := i;
            PageNumber(cur, live, i);
            return;
          }
          page := -1;
        }
        i := i + 1;
      }
      SearchOver(P, ps, pid, size, cur);
    }

    /** reservarPaginaEnMemoria: the page granted is numbered with the pages there were. */
    method GrantPages(pid: int, n: nat, ghost ps: seq<Page>, ghost live: set<int>) returns (code: int)
      requires MemHolds(ps, live) && pid >= 1 && IsInt(pid)
      modifies mem, mem.memory, mem.cache, mem.uses
      ensures MemHolds(ps, live)
      ensures code == 0 || code == -1
      ensures code >= 0 <==> old(MT.Count(TableNow(), MT.NOBODY)) >= n
      ensures code < 0 ==> TableNow() == old(TableNow())
      ensures code >= 0 ==> forall q :: q >= 1 ==>
                MT.Count(TableNow(), q) == old(MT.Count(TableNow(), q)) + (if q == pid then n else 0)
      ensures code >= 0 ==> forall k :: old(MT.Count(TableNow(), pid)) <= k < old(MT.Count(TableNow(), pid)) + n ==>
                Has(pid, k)
    {
      hide MS.CoreAssign, MT.Count, MS.CacheInv, MT.TableInv, Memory.CoreNow, AllHold, MS.Mapped;
      ghost var c := mem.CoreNow();
      MTh.AssignStep(mem.st, mem.Now(), pid, n);
      MTh.CoreAssignCorrect(mem.st.geo, c, pid, n);
      code := mem.AssignPages(pid, n);
      StillHeld(mem.st.geo, c, mem.CoreNow(), ps, live, own);
      forall k
        ensures MS.Mapped(mem.CoreNow(), pid, k) <==> 0 <= k < MT.Count(mem.CoreNow().table, pid)
      {
        MTh.PagesAreAPrefix(mem.st.geo, mem.CoreNow(), pid, k);
      }
    }

    /** reservarPaginaHeap: one page more from the memory server, with one free block. */
    method ReserveHeapPage(pid: int, page: int, ghost ps: seq<Page>, ghost live: set<int>)
      returns (code: int, ghost stale: seq<Byte>)
      requires MemHolds(ps, live) && AdminIs(ps) && DistinctKeys(ps) && ConfigOk(cfg)
      requires pid in live && pid >= 1 && IsInt(pid) && page == MT.Count(TableNow(), pid)
      requires Key(pid, page) !in own && forall i :: 0 <= i < |ps| ==> ps[i].key != Key(pid, page)
      modifies mem, mem.memory, mem.cache, mem.uses, this`admin
      ensures code < 0 ==> MemHolds(ps, live) && AdminIs(ps) && TableNow() == old(TableNow())
      ensures code < 0 <==> old(MT.Count(TableNow(), MT.NOBODY)) == 0
      ensures code >= 0 ==> |stale| == cfg.pageSize
      ensures code >= 0 ==> MemHolds(ps + [FreshPage(cfg.pageSize, Key(pid, page), stale)], live)
      ensures code >= 0 ==> AdminIs(ps + [FreshPage(cfg.pageSize, Key(pid, page), stale)])
      ensures code >= 0 ==> forall q :: q >= 1 ==>
                MT.Count(TableNow(), q) == old(MT.Count(TableNow(), q)) + (if q == pid then 1 else 0)
    {
      hide MemHolds, Has, TableNow, MT.Count, Paste, Meta;
      stale := [];
      code := GrantPages(pid, 1, ps, live);
      if code < 0 {
        return;
      }
      var P := cfg.pageSize;
      ghost var b := Block(false, P - META);
      stale := NewlyHeld(ps, live, pid, page);
      ghost var qs := ps + [Page(Key(pid, page), P - META, stale, [b])];
      WriteHeader(pid, page, 0, NOT_IN_USE, P - META, qs, live, |ps|, b);
      code := 0;
      admin := admin + [Admin(page, pid, P - META)];
      assert qs[|ps| := qs[|ps|].(bytes := Paste(stale, 0, Meta(b)))] == ps + [FreshPage(P, Key(pid, page), stale)];
    }

    lemma NewlyHeld(ps: seq<Page>, live: set<int>, pid: int, page: int) returns (stale: seq<Byte>)
      requires MemHolds(ps, live) && pid >= 1 && page >= 0 && Has(pid, page) && Key(pid, page) !in own
      ensures |stale| == cfg.pageSize
      ensures forall a, bs :: MemHolds(ps + [Page(Key(pid, page), a, stale, bs)], live)
    {
      stale := MS.PageBytes(mem.st.geo, mem.CoreNow(), pid, page);
      forall a, bs
        ensures MemHolds(ps + [Page(Key(pid, page), a, stale, bs)], live)
      {
        var qs := ps + [Page(Key(pid, page), a, stale, bs)];
        forall i | 0 <= i < |qs| && qs[i].key.pid in live
          ensures Holds(mem.st.geo, mem.CoreNow(), qs[i])
        {
          if i < |ps| {
            assert Holds(mem.st.geo, mem.CoreNow(), ps[i]);
          }
        }
      }
    }

    // ----- requests -----

    /** reservarEspacioHeap: in a page the process has, or else in a new one. */
    method ReserveSpace(pid: int, size: nat) returns (o: Outcome, ghost grant: Grant)
      requires Valid() && pid in st.procs && pid in st.granted
      requires size + 2 * META <= cfg.pageSize && IsInt(size)
      modifies this`admin, this`accounts, mem, mem.memory, mem.cache, mem.uses
      ensures PagesInv(cfg.pageSize, st.pages) && Enabled(cfg, st, EvAllocate(pid, size, grant))
      ensures var (t, p) := HeapRuns.Allocate(cfg, st, pid, size, grant);
        && o == p && pid in t.procs && pid in t.granted
        && MemHolds(t.pages, st.procs.Keys) && AdminIs(t.pages)
        && pid in old(accounts)
        && accounts == old(accounts)[pid := old(accounts)[pid].(heapPages := t.procs[pid].account.heapPages)]
        && MT.Count(TableNow(), pid) == t.granted[pid]
      ensures forall q :: q >= 1 && q != pid ==> MT.Count(TableNow(), q) == old(MT.Count(TableNow(), q))
      ensures o.NoPage? <==> NoFit(cfg.pageSize, st.pages, 0, pid, size) && old(MT.Count(TableNow(), MT.NOBODY)) == 0
    {
      hide MemHolds, TableNow, AdminIs, Inv, Search, Carve, FreshPage, FirstFit, HeaderAt, MT.Count, HeapRuns.Allocate,
           Booked, NoFit;
      ghost var s, live := st, st.procs.Keys;
      BookedFor(s, accounts, codePages, TableNow(), pid);
      grant := Refused;
      InvFacts(cfg, s, pid);
      SearchFailsIff(cfg.pageSize, s.pages, 0, pid, size);
      var page, off;
      ghost var ps, f;
      page, off, ps, f := SearchPages(size, pid, s.pages, live);
      AllocateSearched(cfg, s, pid, size, grant, ps, f);
      if page == -1 {
        page := codePages[pid] + cfg.stackPages + accounts[pid].heapPages;
        var code;
        ghost var stale;
        code, stale := ReserveHeapPage(pid, page, ps, live);
        off := 0;
        if code < 0 {
          o := NoPage;
          return;
        }
        accounts := accounts[pid := accounts[pid].(heapPages := accounts[pid].heapPages + 1)];
        grant := Frame(stale);
        AllocateSearched(cfg, s, pid, size, grant, ps, f);
        AppendDistinct(ps, FreshPage(cfg.pageSize, Key(pid, page), stale));
        ps, f := ps + [FreshPage(cfg.pageSize, Key(pid, page), stale)], |ps|;
      }
      ReserveBlock(pid, page, off, size, ps, live, f, FirstFit(ps[f].blocks, size));
      assert ps[f := Carve(ps[f], FirstFit(ps[f].blocks, size), size)]
          == HeapRuns.Allocate(cfg, s, pid, size, grant).0.pages;
      off := off + META;
      o := Placed(page, off);
    }

    /** gestionarAlocar. */
    method Allocate(pid: int, size: int) returns (o: Outcome, ghost grant: Grant)
      requires Valid() && pid in st.procs && IsInt(size)
      modifies this, mem, mem.memory, mem.cache, mem.uses
      ensures Valid() && PagesInv(cfg.pageSize, old(st).pages)
      ensures Enabled(cfg, old(st), EvAllocate(pid, size, grant)) && pid in old(st).granted
      ensures (st, o) == HeapRuns.Allocate(cfg, old(st), pid, size, grant)
      ensures o.NoPage? <==>
                && 0 <= size && size + 2 * META <= cfg.pageSize
                && NoFit(cfg.pageSize, old(st).pages, 0, pid, size)
                && old(MT.Count(TableNow(), MT.NOBODY)) == 0
      ensures own == old(own)
    {
      hide MemHolds, TableNow, AdminIs, Inv, PagesInv, MT.Count, HeapRuns.Allocate, OwnIs, NoFit, Booked;
      ghost var s, was, t := st, accounts, TableNow();
      BookedFor(s, was, codePages, t, pid);
      grant := Refused;
      InvFacts(cfg, s, pid);
      OverLimitIff(cfg.pageSize, size);
      if ToSizeT(size) > cfg.pageSize - 2 * META {
        AllocateTooBig(cfg, s, pid, size, grant);
        o := TooBig;
        return;
      }
      o, grant := ReserveSpace(pid, size);
      AllocateCorrect(cfg, s, pid, size, grant);
      AllocateCharges(cfg, s, pid, size, grant);
      st := HeapRuns.Allocate(cfg, s, pid, size, grant).0;
      OwnStays(cfg, s, st, own);
      ChargeCall(pid, size);
      OneMoved(s, was, codePages, t, st, accounts, TableNow(), pid);
    }

    /** actualizarSysCalls and actualizarAlocar. */
    method ChargeCall(pid: int, size: int)
      requires pid in accounts
      modifies this`accounts
      ensures accounts == old(accounts)[pid := old(accounts)[pid].(allocs := old(accounts)[pid].allocs + 1,
                allocBytes := old(accounts)[pid].allocBytes + size, sysCalls := old(accounts)[pid].sysCalls + 1)]
    {
      accounts := accounts[pid := accounts[pid].(sysCalls := accounts[pid].sysCalls + 1)];
      accounts := accounts[pid := accounts[pid].(allocs := accounts[pid].allocs + 1,
                                                 allocBytes := accounts[pid].allocBytes + size)];
    }

    /** liberarBloqueHeap. */
    method FreeBlock(pid: int, page: int, offset: nat, ghost ps: seq<Page>, ghost live: set<int>, ghost i: nat,
                     ghost k: nat)
      requires MemHolds(ps, live) && AdminIs(ps) && DistinctKeys(ps)
      requires i < |ps| && ps[i].key == Key(pid, page) && pid in live && Tiled(cfg.pageSize, ps[i])
      requires k < |ps[i].blocks| && offset == HeaderAt(ps[i], k) + META && pid in accounts
      modifies mem, mem.memory, mem.cache, mem.uses, this`admin, this`accounts
      ensures IsInt(ps[i].blocks[k].size) && HeaderAt(ps[i], k) + META <= |ps[i].bytes|
      ensures MemHolds(ps[i := FreePage(ps[i], k)], live) && AdminIs(ps[i := FreePage(ps[i], k)])
      ensures accounts == old(accounts)[pid := old(accounts)[pid].(frees := old(accounts)[pid].frees + 1,
                freeBytes := old(accounts)[pid].freeBytes + ps[i].blocks[k].size)]
      ensures TableNow() == old(TableNow())
    {
      hide MemHolds, TableNow, AdminIs, Paste, Meta, HeaderAt, Lays, Span, FreeBytes;
      ghost var g := ps[i];
      HeaderFits(cfg.pageSize, g, k);
      BlockHeader(cfg.pageSize, g, k);
      var off := offset - META;
      var mark, size := ReadHeader(pid, page, off, ps, live, i);
      mark := NOT_IN_USE;
      accounts := accounts[pid := accounts[pid].(frees := accounts[pid].frees + 1,
                                                 freeBytes := accounts[pid].freeBytes + size)];
      ghost var b := Block(false, size);
      WriteHeader(pid, page, off, mark, size, ps, live, i, b);
      AddAvailable(pid, page, size, ps, i);
      ListsAgree(ps[i := g.(bytes := Paste(g.bytes, off, Meta(b)))], live,
                 ps[i := g.(available := g.available + size)], ps[i := FreePage(g, k)]);
    }

    /** gestionarLiberar. */
    method Release(pid: int, page: int, offset: int)
      requires Valid() && pid in st.procs && PagesInv(cfg.pageSize, st.pages)
      requires Owned(cfg, st, Key(pid, page), offset)
      modifies this, mem, mem.memory, mem.cache, mem.uses
      ensures Valid() && PagesInv(cfg.pageSize, old(st).pages)
      ensures st == HeapRuns.Release(cfg, old(st), Key(pid, page), offset) && own == old(own)
    {
      hide MemHolds, TableNow, AdminIs, Inv, MT.Count, HeapRuns.Release, FreePage, Contents, HeaderAt, PageIndex, BlockAt;
      ghost var s, live, key := st, st.procs.Keys, Key(pid, page);
      InvFacts(cfg, s, pid);
      ReleaseInv(cfg, s, key, offset);
      ReleaseParts(cfg, s, key, offset);
      ghost var i := PageIndex(s.pages, key);
      FreeBlock(pid, page, offset, s.pages, live, i, BlockAt(s.pages[i].blocks, offset));
      st := HeapRuns.Release(cfg, s, key, offset);
      accounts := accounts[pid := accounts[pid].(sysCalls := accounts[pid].sysCalls + 1)];
      assert st.procs.Keys == live;
    }

    /** A store into a code or stack page: the kernel's when it loads the program, the
        CPU's when the program assigns to a variable. */
    method StoreOwn(pid: int, page: int, off: nat, d: seq<Byte>)
      requires Valid() && Key(pid, page) in own && off + |d| <= cfg.pageSize
      modifies mem, mem.memory, mem.cache, mem.uses, this`own
      ensures Valid() && Key(pid, page) in old(own) && |old(own)[Key(pid, page)]| == cfg.pageSize
      ensures own == old(own)[Key(pid, page) := Paste(old(own)[Key(pid, page)], off, d)]
    {
      hide MemHoldsWith, TableNow, Inv, AdminIs, OwnIs, MT.Count, Paste;
      OwnSize(st.pages, st.procs.Keys, Key(pid, page));
      ghost var more := own[Key(pid, page) := Paste(own[Key(pid, page)], off, d)];
      WriteOwnBytes(pid, page, off, d, st.pages, st.procs.Keys, more);
      SameKeysOwn(cfg, st, own, more);
      own := more;
    }

    method WriteOwnBytes(pid: int, page: int, off: nat, d: seq<Byte>, ghost ps: seq<Page>, ghost live: set<int>,
                         ghost more: map<Key, seq<Byte>>)
      requires MemHolds(ps, live) && Key(pid, page) in own && off + |d| <= cfg.pageSize == |own[Key(pid, page)]|
      requires more == own[Key(pid, page) := Paste(own[Key(pid, page)], off, d)]
      modifies mem, mem.memory, mem.cache, mem.uses
      ensures MemHoldsWith(ps, live, more) && TableNow() == old(TableNow())
    {
      hide MS.CacheInv, MS.CoreWrite;
      assert pid >= 1 && page >= 0 && MS.Mapped(mem.CoreNow(), pid, page);
      MTh.WriteStep(mem.st, mem.Now(), pid, page, off, d);
      WriteOwnHolds(mem.st.geo, mem.CoreNow(), ps, live, own, Key(pid, page), off, d);
      var code := mem.StoreBytes(pid, page, off, d);
    }

    /** A running process storing through the memory server into a block it owns. */
    method Store(pid: int, page: int, offset: int, at: nat, d: seq<Byte>)
      requires Valid() && PagesInv(cfg.pageSize, st.pages)
      requires Enabled(cfg, st, EvStore(pid, page, offset, at, d))
      modifies mem, mem.memory, mem.cache, mem.uses, this`st
      ensures Valid() && Inv(cfg, old(st))
      ensures st == Step(cfg, old(st), EvStore(pid, page, offset, at, d))
    {
      hide MemHolds, TableNow, AdminIs, Inv, MT.Count, Contents, Paste, PagesInv, Step, Enabled;
      ghost var s, live, key := st, st.procs.Keys, Key(pid, page);
      StoreParts(cfg, s, EvStore(pid, page, offset, at, d));
      StoreInv(cfg, s, EvStore(pid, page, offset, at, d));
      WritePage(pid, page, at, d, s.pages, live, PageIndex(s.pages, key));
      st := Step(cfg, s, EvStore(pid, page, offset, at, d));
      ListsAgree(st.pages, live, s.pages, st.pages);
    }

    /** pedirMemoria for a process being admitted: it gets its code and stack pages, and is
        admitted, iff that many frames are free; if not, nothing changes. */
    method Admit(pid: int, code: nat) returns (ok: bool)
      requires Valid() && pid >= 1 && IsInt(pid) && pid !in st.started
      modifies this, mem, mem.memory, mem.cache, mem.uses
      ensures Valid() && Inv(cfg, old(st))
      ensures ok <==> old(MT.Count(TableNow(), MT.NOBODY)) >= code + cfg.stackPages
      ensures if ok then st == Step(cfg, old(st), EvStart(pid, code)) else st == old(st)
      ensures !ok ==> TableNow() == old(TableNow()) && own == old(own)
      ensures forall key :: key in old(own) ==> key in own && own[key] == old(own)[key]
    {
      hide MemHolds, TableNow, MT.Count, PagesInv, Has, Booked, OwnIs, Linked, AdminIs;
      ghost var s, t := st, TableNow();
      NewPid(cfg, s, accounts, codePages, t, own, pid);
      var res := GrantPages(pid, code + cfg.stackPages, s.pages, s.procs.Keys);
      if res < 0 {
        return false;
      }
      StartInv(cfg, s, pid, code);
      StartBooked(cfg, s, accounts, codePages, t, TableNow(), own, pid, code);
      codePages := codePages[pid := code];
      accounts := accounts[pid := Account(0, 0, 0, 0, 0, 0)];
      st := Start(cfg, s, pid, code);
      NewLive(s.pages, s.procs.Keys, st.procs.Keys, pid);
      Adopt(s.pages, st.procs.Keys, pid, code + cfg.stackPages);
      ok := true;
    }

    /** The new pages are accounted for from now on. */
    ghost method Adopt(ps: seq<Page>, live: set<int>, pid: int, n: nat)
      requires MemHolds(ps, live) && pid >= 1 && forall k :: 0 <= k < n ==> Has(pid, k)
      requires forall i :: 0 <= i < |ps| ==> ps[i].key.pid != pid
      requires forall key :: key in own ==> key.pid != pid
      modifies this`own
      ensures MemHolds(ps, live)
      ensures forall key: Key :: key in own <==> key in old(own) || (key.pid == pid && 0 <= key.page < n)
      ensures forall key :: key in old(own) ==> own[key] == old(own)[key]
    {
      hide MemHoldsWith, Has;
      own := Adoption(ps, live, pid, n);
    }

    lemma Adoption(ps: seq<Page>, live: set<int>, pid: int, n: nat) returns (more: map<Key, seq<Byte>>)
      requires MemHolds(ps, live) && pid >= 1 && forall k :: 0 <= k < n ==> Has(pid, k)
      requires forall i :: 0 <= i < |ps| ==> ps[i].key.pid != pid
      requires forall key :: key in own ==> key.pid != pid
      ensures MemHoldsWith(ps, live, more)
      ensures forall key: Key :: key in more <==> key in own || (key.pid == pid && 0 <= key.page < n)
      ensures forall key :: key in own ==> more[key] == own[key]
    {
      hide AllHold, OwnHeld, NotOwn, NewPages, MS.CacheInv, MT.TableInv, Memory.CoreNow, MS.Mapped, MS.PageBytes;
      forall k | 0 <= k < n
        ensures MS.Mapped(mem.CoreNow(), pid, k)
      {
        assert Has(pid, k);
      }
      Adopted(mem.st.geo, mem.CoreNow(), ps, own, pid, n);
      more := own + NewPages(mem.st.geo, mem.CoreNow(), pid, n);
    }

    lemma OwnSize(ps: seq<Page>, live: set<int>, key: Key)
      requires MemHolds(ps, live) && key in own
      ensures |own[key]| == cfg.pageSize
    {
    }

    lemma NewLive(ps: seq<Page>, live: set<int>, more: set<int>, pid: int)
      requires MemHolds(ps, live) && more == live + {pid}
      requires forall i :: 0 <= i < |ps| ==> ps[i].key.pid != pid
      ensures MemHolds(ps, more)
    {
      assert forall i :: 0 <= i < |ps| && ps[i].key.pid in more ==> ps[i].key.pid in live;
    }

    /** liberarRecursosEnMemoria and liberarMemoriaDinamica. */
    method Finish(pid: int)
      requires Valid() && pid in st.procs
      modifies this, mem, mem.memory, mem.cache, mem.uses
      ensures Valid() && st == HeapRuns.Finish(old(st), pid)
      ensures own == Without(old(own), pid)
    {
      hide MemHoldsWith, TableNow, AdminIs, Inv, MT.Count, PagesInv, DropSkipping, Without;
      ghost var s := st;
      FinishCorrect(cfg, s, pid);
      ghost var t := HeapRuns.Finish(s, pid);
      EndInMemory(pid, s.pages, s.procs.Keys, t.pages, t.procs.Keys);
      DropAdmin(pid, s.pages);
      st := t;
      own := Without(own, pid);
    }

    /** finalizarPrograma as the heap sees it: the frames of this process go, all other pages
        stay. */
    method EndInMemory(pid: int, ghost ps: seq<Page>, ghost live: set<int>, ghost qs: seq<Page>, ghost less: set<int>)
      requires MemHolds(ps, live) && pid >= 1 && less == live - {pid} && forall p <- qs :: p in ps
      modifies mem, mem.memory, mem.cache, mem.uses
      ensures MemHoldsWith(qs, less, Without(own, pid))
      ensures forall q :: q >= 1 ==> MT.Count(TableNow(), q) == if q == pid then 0 else old(MT.Count(TableNow(), q))
    {
      hide AllHold, OwnHeld, NotOwn, Without, MT.Count, MS.CoreFinish, MS.CacheInv, MS.Mapped, MS.PageBytes, MT.TableInv;
      ghost var c := mem.CoreNow();
      MTh.FinishStep(mem.st, mem.Now(), pid);
      MTh.CoreFinishCorrect(mem.st.geo, c, pid);
      mem.FinishProgram(pid);
      FewerHeld(mem.st.geo, c, mem.CoreNow(), ps, live, own, qs, less, pid);
    }

    /** destruirTodasLasPaginasHeapDeProceso. */
    method DropAdmin(pid: int, ghost ps: seq<Page>)
      requires AdminIs(ps)
      modifies this`admin
      ensures AdminIs(DropSkipping(ps, (g: Page) => g.key.pid == pid))
    {
      ghost var mine := (a: Admin) => a.pid == pid;
      ghost var all := admin;
      var i := 0;
      while i < |admin|
        invariant 0 <= i <= |admin| + 1
        invariant i <= |admin| ==> admin[..i] + DropSkipping(admin[i..], mine) == DropSkipping(all, mine)
        invariant i > |admin| ==> admin == DropSkipping(all, mine)
        decreases |admin| - i
      {
        DropTurn(admin, i, mine);
        if admin[i].pid == pid {
          admin := admin[..i] + admin[i + 1..];
        }
        i := i + 1;
      }
      assert admin == DropSkipping(all, mine) by {
        if i <= |admin| {
          assert admin[i..] == [] && admin[..i] == admin;
        }
      }
      DropsAgree(ps, all, pid);
    }
  }

  /** Where the compaction walk stands: done is behind, a under it, r ahead. */
  ghost predicate Walk(P: nat, p: seq<Byte>, done: seq<Block>, offset: int, a: Block, r: seq<Block>) {
    && |p| == P && IsInt(P)
    && offset == Span(done)
    && Lays(p, 0, done + [a] + r)
    && Span(done) + META + a.size + Span(r) == P
  }

  lemma WalkHeaders(P: nat, p: seq<Byte>, done: seq<Block>, offset: int, a: Block, r: seq<Block>)
    requires Walk(P, p, done, offset, a, r)
    ensures 0 <= offset && offset + META + a.size <= P && IsInt(a.size)
    ensures MarkAt(p, offset) == Mark(a) && SizeAt(p, offset) == a.size
    ensures r != [] ==> offset + META + a.size + META + r[0].size <= P
    ensures r != [] ==> MarkAt(p, offset + META + a.size) == Mark(r[0])
    ensures r != [] ==> SizeAt(p, offset + META + a.size) == r[0].size
    ensures Lays(p, offset, [a] + r)
  {
    hide Lays, Live, Span, Mark, MarkAt, SizeAt;
    OneBlock(a);
    SplitRun(p, 0, done, offset, [a], offset + META + a.size, r);
    LaysAppend(p, offset, [a], offset + META + a.size, r);
    BlockFits(p, offset, a);
    SpanFirst(r);
    ReadMeta(p, offset, [a]);
    if r != [] {
      ReadMeta(p, offset + META + a.size, r);
    }
  }

  lemma BlockFits(p: seq<Byte>, off: nat, a: Block)
    requires Lays(p, off, [a])
    ensures off + META + a.size <= |p| && IsInt(a.size)
  {
    OneBlock(a);
  }

  lemma WalkMerge(P: nat, p: seq<Byte>, done: seq<Block>, offset: int, a: Block, r: seq<Block>)
    requires Walk(P, p, done, offset, a, r) && r != [] && !a.used && !r[0].used
    ensures 0 <= offset && offset + META <= P && IsInt(Merge(a, r[0]).size)
    ensures Walk(P, Paste(p, offset, Meta(Merge(a, r[0]))), done, offset, Merge(a, r[0]), r[1..])
  {
    hide Lays, Live;
    WalkHeaders(P, p, done, offset, a, r);
    var m := Merge(a, r[0]);
    assert [a] + r == [a, r[0]] + r[1..];
    MergeStep(p, offset, a, r[0], r[1..]);
    var q := Paste(p, offset, Meta(m));
    WalkRejoin(P, p, q, done, offset, a, r, m, r[1..]);
  }

  lemma WalkRejoin(P: nat, p: seq<Byte>, q: seq<Byte>, done: seq<Block>, offset: nat, a: Block, r: seq<Block>,
                   m: Block, z: seq<Block>)
    requires Walk(P, p, done, offset, a, r) && |q| == P
    requires Lays(q, offset, [m] + z) && Span([m] + z) == Span([a] + r)
    requires forall k :: 0 <= k < offset ==> p[k] == q[k]
    ensures Walk(P, q, done, offset, m, z)
  {
    hide Live;
    OneBlock(a);
    SpanAppend([a], r);
    OneBlock(m);
    SpanAppend([m], z);
    SplitRun(p, 0, done, offset, [a], offset + META + a.size, r);
    SameBytes(p, q, 0, done);
    LaysAppend(q, 0, done, offset, [m] + z);
    assert done + ([m] + z) == done + [m] + z;
  }

  lemma WalkPast(P: nat, p: seq<Byte>, done: seq<Block>, offset: int, a: Block, r: seq<Block>)
    requires Walk(P, p, done, offset, a, r) && r != []
    ensures Walk(P, p, done + [a], offset + META + a.size, r[0], r[1..])
  {
    hide Lays;
    OneBlock(a);
    SpanAppend(done, [a]);
    assert done + [a] + [r[0]] + r[1..] == done + [a] + r;
  }

  /** What is left to do from here is what the specification does to the whole page. */
  ghost predicate Compacting(P: nat, g: Page, p: seq<Byte>, done: seq<Block>, offset: int, a: Block, r: seq<Block>,
                             first: bool)
    requires PageInv(P, g)
  {
    && Walk(P, p, done, offset, a, r) && offset >= 0
    && Compactable(P, g, p, offset, a, r)
    && if first then done == [] && p == g.bytes && [a] + r == g.blocks
       else CompactPageBytes(g.bytes, g.blocks) == CompactBytes(p, offset, a, r)
            && CompactPageBlocks(g.blocks) == done + CompactBlocks(a, r)
  }

  ghost predicate Compactable(P: nat, g: Page, p: seq<Byte>, offset: nat, a: Block, r: seq<Block>) {
    IsInt(|p|) && IsInt(|g.bytes|) && offset + META + a.size + Span(r) <= |p|
  }

  lemma CompactStart(P: nat, g: Page)
    requires PageInv(P, g)
    ensures Compacting(P, g, g.bytes, [], 0, g.blocks[0], g.blocks[1..], true)
  {
    PageInts(g.bytes, g.blocks);
    assert [] + [g.blocks[0]] + g.blocks[1..] == g.blocks;
  }

  /** Both headers that a turn reads lie in the page. */
  lemma Headers(P: nat, g: Page, p: seq<Byte>, done: seq<Block>, offset: nat, a: Block, r: seq<Block>, first: bool)
    requires PageInv(P, g) && Compacting(P, g, p, done, offset, a, r, first)
    requires first || offset + META + a.size < P - META
    ensures r != [] && (!first ==> Span(r) > META)
    ensures |p| == P && offset + META + a.size + META + r[0].size <= P && IsInt(a.size) && IsInt(P)
    ensures MarkAt(p, offset) == Mark(a) && SizeAt(p, offset) == a.size
    ensures MarkAt(p, offset + META + a.size) == Mark(r[0]) && SizeAt(p, offset + META + a.size) == r[0].size
    ensures Mark(a) == NOT_IN_USE <==> !a.used
    ensures Mark(r[0]) == NOT_IN_USE <==> !r[0].used
    ensures Merge(a, r[0]).size == a.size + META + r[0].size && Mark(Merge(a, r[0])) == NOT_IN_USE
  {
    hide Lays, Live, CompactBytes, CompactBlocks, CompactPageBytes, CompactPageBlocks;
    WalkHeaders(P, p, done, offset, a, r);
  }

  lemma CompactTurn(P: nat, g: Page, p: seq<Byte>, done: seq<Block>, offset: nat, a: Block, r: seq<Block>, first: bool)
    requires PageInv(P, g) && Compacting(P, g, p, done, offset, a, r, first)
    requires r != [] && (!first ==> Span(r) > META)
    ensures offset + META <= |p| && IsInt(Merge(a, r[0]).size)
    ensures if !a.used && !r[0].used
            then Compacting(P, g, Paste(p, offset, Meta(Merge(a, r[0]))), done, offset, Merge(a, r[0]), r[1..], false)
            else Compacting(P, g, p, done + [a], offset + META + a.size, r[0], r[1..], false)
  {
    hide Lays, Live, PageInv, Walk, Span, CompactBytes, CompactBlocks, CompactPageBytes, CompactPageBlocks, Paste, Meta;
    WalkFits(P, p, done, offset, a, r);
    TurnDoes(P, g, p, done, offset, a, r, first);
    if !a.used && !r[0].used {
      WalkMerge(P, p, done, offset, a, r);
    } else {
      WalkPast(P, p, done, offset, a, r);
    }
  }

  /** One turn is one unfolding of the specification, the first turn of its entry. */
  lemma TurnDoes(P: nat, g: Page, p: seq<Byte>, done: seq<Block>, offset: nat, a: Block, r: seq<Block>, first: bool)
    requires PageInv(P, g) && Compacting(P, g, p, done, offset, a, r, first)
    requires r != [] && (!first ==> Span(r) > META)
    ensures offset + META + a.size + Span(r) == |p| && Span(r) == META + r[0].size + Span(r[1..])
    ensures IsInt(|p|) && IsInt(Merge(a, r[0]).size) && IsInt(|g.bytes|) && |g.blocks| >= 2 && Span(g.blocks) <= |g.bytes|
    ensures if !a.used && !r[0].used
            then CompactPageBytes(g.bytes, g.blocks)
                   == CompactBytes(Paste(p, offset, Meta(Merge(a, r[0]))), offset, Merge(a, r[0]), r[1..])
                 && CompactPageBlocks(g.blocks) == done + CompactBlocks(Merge(a, r[0]), r[1..])
            else CompactPageBytes(g.bytes, g.blocks) == CompactBytes(p, offset + META + a.size, r[0], r[1..])
                 && CompactPageBlocks(g.blocks) == done + [a] + CompactBlocks(r[0], r[1..])
  {
    hide Lays, Live, Paste, Meta, Walk, Span, PageInv, CompactPageBytes, CompactPageBlocks, CompactBytes, CompactBlocks;
    WalkFits(P, p, done, offset, a, r);
    PageParts(P, g);
    if first {
      assert g.blocks[0] == a && g.blocks[1] == r[0] && g.blocks[2..] == r[1..];
      PageUnfolds(g);
    } else {
      WalkUnfolds(p, offset, a, r);
      if a.used || r[0].used {
        assert done + ([a] + CompactBlocks(r[0], r[1..])) == done + [a] + CompactBlocks(r[0], r[1..]);
      }
    }
  }

  lemma PageParts(P: nat, g: Page)
    requires PageInv(P, g)
    ensures IsInt(|g.bytes|) && |g.blocks| >= 2 && Span(g.blocks) <= |g.bytes|
    ensures Span(g.blocks) == 2 * META + g.blocks[0].size + g.blocks[1].size + Span(g.blocks[2..])
  {
    PageInts(g.bytes, g.blocks);
    assert g.blocks[1..][1..] == g.blocks[2..];
  }

  lemma PageUnfolds(g: Page)
    requires IsInt(|g.bytes|) && |g.blocks| >= 2 && Span(g.blocks) <= |g.bytes|
    requires Span(g.blocks) == 2 * META + g.blocks[0].size + g.blocks[1].size + Span(g.blocks[2..])
    ensures var bs := g.blocks;
      if !bs[0].used && !bs[1].used
      then CompactPageBytes(g.bytes, bs)
             == CompactBytes(Paste(g.bytes, 0, Meta(Merge(bs[0], bs[1]))), 0, Merge(bs[0], bs[1]), bs[2..])
           && CompactPageBlocks(bs) == CompactBlocks(Merge(bs[0], bs[1]), bs[2..])
      else CompactPageBytes(g.bytes, bs) == CompactBytes(g.bytes, META + bs[0].size, bs[1], bs[2..])
           && CompactPageBlocks(bs) == [bs[0]] + CompactBlocks(bs[1], bs[2..])
  {
  }

  lemma WalkUnfolds(p: seq<Byte>, off: nat, a: Block, r: seq<Block>)
    requires IsInt(|p|) && off + META + a.size + Span(r) <= |p| && Span(r) > META && r != []
    requires Span(r) == META + r[0].size + Span(r[1..])
    ensures if !a.used && !r[0].used
            then CompactBytes(p, off, a, r)
                   == CompactBytes(Paste(p, off, Meta(Merge(a, r[0]))), off, Merge(a, r[0]), r[1..])
                 && CompactBlocks(a, r) == CompactBlocks(Merge(a, r[0]), r[1..])
            else CompactBytes(p, off, a, r) == CompactBytes(p, off + META + a.size, r[0], r[1..])
                 && CompactBlocks(a, r) == [a] + CompactBlocks(r[0], r[1..])
  {
  }

  lemma WalkFits(P: nat, p: seq<Byte>, done: seq<Block>, offset: int, a: Block, r: seq<Block>)
    requires Walk(P, p, done, offset, a, r) && r != []
    ensures |p| == P && IsInt(P) && 0 <= offset && (done == [] ==> offset == 0)
    ensures offset + META + a.size + Span(r) == P && Span(r) == META + r[0].size + Span(r[1..])
    ensures IsInt(a.size + META + r[0].size)
  {
  }

  lemma CompactEnd(P: nat, g: Page, p: seq<Byte>, done: seq<Block>, offset: nat, a: Block, r: seq<Block>, first: bool)
    requires PageInv(P, g) && Compacting(P, g, p, done, offset, a, r, first) && !first
    requires !(offset < P && offset + META + a.size < P - META)
    ensures IsInt(|g.bytes|) && |g.blocks| >= 2 && Span(g.blocks) <= |g.bytes|
    ensures CompactPage(g) == g.(bytes := p, blocks := done + [a] + r,
                                 available := g.available + META * (|g.blocks| - |done| - 1 - |r|))
  {
    hide Lays, Live;
    assert Span(r) <= META;
    assert done + ([a] + r) == done + [a] + r;
  }

  /** Where the search of a page stands: done is behind and does not fit, rest is ahead. */
  ghost predicate Looking(P: nat, g: Page, done: seq<Block>, rest: seq<Block>, off: int, size: nat) {
    && Lays(g.bytes, 0, g.blocks) && g.blocks == done + rest
    && off == Span(done) && off + Span(rest) == P == |g.bytes|
    && FirstFit(g.blocks, size) == if FirstFit(rest, size) < 0 then -1 else |done| + FirstFit(rest, size)
  }

  lemma LookStart(P: nat, g: Page, size: nat)
    requires Tiled(P, g)
    ensures Looking(P, g, [], g.blocks, 0, size)
  {
    hide Lays;
    assert [] + g.blocks == g.blocks;
  }

  /** The header read is that of the block ahead: the search ends there or goes past it. */
  lemma LookTurn(P: nat, g: Page, done: seq<Block>, rest: seq<Block>, off: nat, size: nat)
    requires Looking(P, g, done, rest, off, size) && off < P
    ensures rest != [] && off + META <= P == |g.bytes|
    ensures SizeAt(g.bytes, off) == rest[0].size
    ensures if MarkAt(g.bytes, off) == NOT_IN_USE && rest[0].size >= size + META
            then FirstFit(g.blocks, size) >= 0 && HeaderAt(g, FirstFit(g.blocks, size)) == off
            else Looking(P, g, done + [rest[0]], rest[1..], off + META + rest[0].size, size)
  {
    hide Lays, FirstFit, Span;
    PageInts(g.bytes, g.blocks);
    LaysAppend(g.bytes, 0, done, off, rest);
    SpanFirst(rest);
    ReadMeta(g.bytes, off, rest);
    SpanAppend(done, [rest[0]]);
    OneBlock(rest[0]);
    assert done + [rest[0]] + rest[1..] == done + rest;
    assert g.blocks[..|done|] == done;
    FitFirst(rest, size);
  }

  lemma LookEnd(P: nat, g: Page, done: seq<Block>, rest: seq<Block>, off: int, size: nat)
    requires Looking(P, g, done, rest, off, size) && off >= P
    ensures FirstFit(g.blocks, size) < 0
  {
    hide Lays;
    assert rest == [];
  }

  lemma SpanFirst(bs: seq<Block>)
    ensures if bs == [] then Span(bs) == 0 else Span(bs) == META + bs[0].size + Span(bs[1..])
  {
  }

  lemma FitFirst(bs: seq<Block>, size: nat)
    requires bs != []
    ensures FirstFit(bs, size) == if !bs[0].used && bs[0].size >= size + META then 0
                                  else if FirstFit(bs[1..], size) < 0 then -1 else FirstFit(bs[1..], size) + 1
  {
  }

  lemma BlockHeader(P: nat, g: Page, k: nat)
    requires Tiled(P, g) && k < |g.blocks|
    ensures HeaderAt(g, k) + META <= P
    ensures MarkAt(g.bytes, HeaderAt(g, k)) == Mark(g.blocks[k]) && SizeAt(g.bytes, HeaderAt(g, k)) == g.blocks[k].size
  {
    LaysMiddle(g.bytes, g.blocks, k);
    ReadMeta(g.bytes, HeaderAt(g, k), [g.blocks[k]]);
  }

  /** The list as the search has left it after looking at the first i entries. */
  ghost predicate Searching(P: nat, ps: seq<Page>, i: nat, pid: int, size: nat, cur: seq<Page>)
    requires PagesInv(P, ps) && IsInt(P)
  {
    && i <= |ps| == |cur|
    && (forall k :: 0 <= k < |ps| ==> cur[k].key == ps[k].key)
    && (forall k :: 0 <= k < i ==> cur[k] == Search(P, ps, 0, pid, size).0[k])
    && (forall k :: i <= k < |ps| ==>
          cur[k] == ps[k] && Search(P, ps, 0, pid, size).0[k] == Search(P, ps, i, pid, size).0[k])
    && Search(P, ps, 0, pid, size).1 == Search(P, ps, i, pid, size).1
  }

  lemma SearchBegin(P: nat, ps: seq<Page>, pid: int, size: nat)
    requires PagesInv(P, ps) && IsInt(P)
    ensures Searching(P, ps, 0, pid, size, ps)
  {
    hide Search, PageInv;
  }

  lemma SearchTurn(P: nat, ps: seq<Page>, i: nat, pid: int, size: nat, cur: seq<Page>)
    requires PagesInv(P, ps) && IsInt(P) && size + 2 * META <= P
    requires i < |ps| && Searching(P, ps, i, pid, size, cur)
    ensures |cur| == |ps| && cur[i] == ps[i] && PageInv(P, cur[i]) && DistinctKeys(cur)
    ensures |cur[i].blocks| >= 2 && Span(cur[i].blocks) <= |cur[i].bytes| && IsInt(|cur[i].bytes|)
    ensures Tiled(P, CompactPage(cur[i])) && CompactPage(cur[i]).key == cur[i].key
    ensures if ps[i].available >= size + META && ps[i].key.pid == pid then
              if FirstFit(CompactPage(cur[i]).blocks, size) >= 0
              then Search(P, ps, 0, pid, size) == (cur[i := CompactPage(cur[i])], i)
              else Searching(P, ps, i + 1, pid, size, cur[i := CompactPage(cur[i])])
            else Searching(P, ps, i + 1, pid, size, cur)
  {
    hide Lays, FreeBytes, Span, FirstFit, CompactPage, LiveCount, LiveBytes, Payloads;
    assert PageInv(P, ps[i]);
    PageInts(ps[i].bytes, ps[i].blocks);
    CompactPageKeeps(P, ps[i]);
    SearchCorrect(P, ps, i + 1, pid, size);
    SearchCorrect(P, ps, i, pid, size);
    SameKeys(ps, cur);
    if Search(P, ps, i, pid, size).1 == i {
      assert Search(P, ps, 0, pid, size).0 == cur[i := CompactPage(cur[i])];
    }
  }

  lemma SearchOver(P: nat, ps: seq<Page>, pid: int, size: nat, cur: seq<Page>)
    requires PagesInv(P, ps) && IsInt(P)
    requires Searching(P, ps, |ps|, pid, size, cur)
    ensures Search(P, ps, 0, pid, size) == (cur, -1)
  {
    hide PageInv;
    assert Search(P, ps, 0, pid, size).0 == cur;
  }

  lemma AllocateTooBig(cfg: Config, s: State, pid: int, size: int, grant: Grant)
    requires Inv(cfg, s) && Enabled(cfg, s, EvAllocate(pid, size, grant)) && pid in s.granted
    requires ToSizeT(size) > cfg.pageSize - 2 * META
    ensures HeapRuns.Allocate(cfg, s, pid, size, grant) == (s, TooBig)
  {
  }

  /** The three ways a request within the limit can go, by what the search found. */
  lemma AllocateSearched(cfg: Config, s: State, pid: int, size: nat, grant: Grant, qs: seq<Page>, f: int)
    requires Inv(cfg, s) && Enabled(cfg, s, EvAllocate(pid, size, grant)) && pid in s.granted
    requires size + 2 * META <= cfg.pageSize
    requires (qs, f) == Search(cfg.pageSize, s.pages, 0, pid, size)
    ensures |qs| == |s.pages| && f < |qs| && DistinctKeys(qs)
    ensures forall i :: 0 <= i < |qs| ==> qs[i].key == s.pages[i].key
    ensures f >= 0 ==> qs[f].key.pid == pid && Splittable(cfg.pageSize, qs[f], size)
    ensures f >= 0 ==>
      HeapRuns.Allocate(cfg, s, pid, size, grant)
      == (s.(pages := qs[f := Carve(qs[f], FirstFit(qs[f].blocks, size), size)],
             procs := s.procs[pid := ChargeAlloc(s.procs[pid], size, 0)]),
          Placed(qs[f].key.page, HeaderAt(qs[f], FirstFit(qs[f].blocks, size)) + META))
    ensures f < 0 && grant.Refused? ==>
      var c := ChargeAlloc(s.procs[pid], size, 0);
      HeapRuns.Allocate(cfg, s, pid, size, grant)
      == (s.(pages := qs,
             procs := s.procs[pid := c.(refused := c.refused + 1, refusedBytes := c.refusedBytes + size)]), NoPage)
    ensures f < 0 && grant.Frame? ==>
      var g := FreshPage(cfg.pageSize, Key(pid, NextPage(cfg, s.procs[pid])), grant.stale);
      && Splittable(cfg.pageSize, g, size) && FirstFit(g.blocks, size) == 0 && HeaderAt(g, 0) == 0
      && g.key == Key(pid, NextPage(cfg, s.procs[pid]))
      && HeapRuns.Allocate(cfg, s, pid, size, grant)
         == (s.(pages := qs + [Carve(g, 0, size)], procs := s.procs[pid := ChargeAlloc(s.procs[pid], size, 1)],
                granted := s.granted[pid := s.granted[pid] + 1]),
             Placed(g.key.page, META))
    ensures forall i :: 0 <= i < |qs| ==> qs[i].key != Key(pid, NextPage(cfg, s.procs[pid]))
  {
    hide Search, Carve, LiveCount, LiveBytes, Payloads, TallyOf, Lays, Live;
    InvFacts(cfg, s, pid);
    SearchCorrect(cfg.pageSize, s.pages, 0, pid, size);
    SameKeys(s.pages, qs);
    if f >= 0 {
      HeaderFits(cfg.pageSize, qs[f], FirstFit(qs[f].blocks, size));
    } else if grant.Frame? {
      var g := FreshPage(cfg.pageSize, Key(pid, NextPage(cfg, s.procs[pid])), grant.stale);
      FreshTiled(cfg.pageSize, g.key, grant.stale);
      assert g.blocks[..0] == [];
    }
  }

  lemma AppendDistinct(ps: seq<Page>, g: Page)
    requires DistinctKeys(ps) && forall i :: 0 <= i < |ps| ==> ps[i].key != g.key
    ensures DistinctKeys(ps + [g])
  {
  }

  ghost predicate Splittable(P: nat, g: Page, size: nat) {
    Tiled(P, g) && FirstFit(g.blocks, size) >= 0 && g.blocks[FirstFit(g.blocks, size)].size >= size + META
    && IsInt(|g.bytes|)
    && HeaderAt(g, FirstFit(g.blocks, size)) + META + g.blocks[FirstFit(g.blocks, size)].size <= |g.bytes|
  }

  /** Whatever the answer, only the caller's record and page count move. */
  lemma AllocateCharges(cfg: Config, s: State, pid: int, size: nat, grant: Grant)
    requires Inv(cfg, s) && Enabled(cfg, s, EvAllocate(pid, size, grant)) && pid in s.granted
    requires size + 2 * META <= cfg.pageSize
    ensures var t := HeapRuns.Allocate(cfg, s, pid, size, grant).0;
      && t.procs.Keys == s.procs.Keys
      && t.procs[pid].codePages == s.procs[pid].codePages
      && t.procs[pid].account == s.procs[pid].account.(
           heapPages := t.procs[pid].account.heapPages,
           allocs := s.procs[pid].account.allocs + 1,
           allocBytes := s.procs[pid].account.allocBytes + size,
           sysCalls := s.procs[pid].account.sysCalls + 1)
      && pid in t.granted
      && (forall q :: q != pid ==> (q in t.granted <==> q in s.granted))
      && (forall q :: q != pid && q in s.procs ==> t.procs[q] == s.procs[q])
      && (forall q :: q != pid && q in s.granted ==> t.granted[q] == s.granted[q])
  {
    hide Search, Carve, FreshPage, FirstFit;
    OverLimitIff(cfg.pageSize, size);
  }

  lemma ReleaseInv(cfg: Config, s: State, key: Key, off: int)
    requires Inv(cfg, s) && key.pid in s.procs && Owned(cfg, s, key, off)
    ensures Inv(cfg, HeapRuns.Release(cfg, s, key, off))
  {
    hide Inv;
    ReleaseCorrect(cfg, s, key, off);
  }

  lemma ReleaseParts(cfg: Config, s: State, key: Key, off: int)
    requires PagesInv(cfg.pageSize, s.pages) && key.pid in s.procs && Owned(cfg, s, key, off)
    ensures PageIndex(s.pages, key) >= 0 && BlockAt(s.pages[PageIndex(s.pages, key)].blocks, off) >= 0
    ensures var g := s.pages[PageIndex(s.pages, key)];
      var k := BlockAt(g.blocks, off);
      && PageInv(cfg.pageSize, g) && g.blocks[k].used && off == HeaderAt(g, k) + META
      && IsInt(g.blocks[k].size) && HeaderAt(g, k) + META <= |g.bytes| && IsInt(|g.bytes|)
      && FreePage(g, k) == Page(g.key, g.available + g.blocks[k].size,
                                Paste(g.bytes, HeaderAt(g, k), Meta(Block(false, g.blocks[k].size))),
                                g.blocks[k := Block(false, g.blocks[k].size)])
      && HeapRuns.Release(cfg, s, key, off)
         == s.(pages := s.pages[PageIndex(s.pages, key) := FreePage(g, k)],
               procs := s.procs[key.pid := ChargeFree(s.procs[key.pid], g.blocks[k].size)])
  {
    hide Paste, Meta, Lays, Contents;
    OwnedBlock(cfg, s, key, off);
    var g := s.pages[PageIndex(s.pages, key)];
    HeaderFits(cfg.pageSize, g, BlockAt(g.blocks, off));
    PageInts(g.bytes, g.blocks);
  }

  lemma StoreParts(cfg: Config, s: State, e: Event)
    requires Inv(cfg, s) && e.EvStore? && Enabled(cfg, s, e)
    ensures PagesInv(cfg.pageSize, s.pages) && e.pid in s.procs
    ensures var i := PageIndex(s.pages, Key(e.pid, e.page));
      && 0 <= i && s.pages[i].key == Key(e.pid, e.page) && DistinctKeys(s.pages)
      && e.at + |e.d| <= cfg.pageSize == |s.pages[i].bytes|
      && Step(cfg, s, e) == s.(pages := s.pages[i := s.pages[i].(bytes := Paste(s.pages[i].bytes, e.at, e.d))])
  {
    hide Paste, Lays, Contents, Linked;
    var key, off := Key(e.pid, e.page), e.offset;
    OwnedBlock(cfg, s, key, off);
    var g := s.pages[PageIndex(s.pages, key)];
    HeaderFits(cfg.pageSize, g, BlockAt(g.blocks, off));
  }

  lemma StoreInv(cfg: Config, s: State, e: Event)
    requires Inv(cfg, s) && e.EvStore? && Enabled(cfg, s, e)
    ensures Inv(cfg, Step(cfg, s, e))
  {
    hide Inv;
    StoreCorrect(cfg, s, e);
  }

  /** The pages that remain listed after a process ends are still held for the others. */
  lemma FewerHeld(g: MT.Geometry, c: MS.Core, e: MS.Core, ps: seq<Page>, live: set<int>, own: map<Key, seq<Byte>>,
                  qs: seq<Page>, less: set<int>, pid: int)
    requires MS.CoreInv(g, c) && MS.CoreInv(g, e) && AllHold(g, c, ps, live)
    requires OwnHeld(g, c, own) && NotOwn(ps, own)
    requires less == live - {pid} && forall p <- qs :: p in ps
    requires forall q, k :: q >= 1 && q != pid ==> MS.Mapped(e, q, k) == MS.Mapped(c, q, k)
    requires forall q, k :: q >= 1 && q != pid && MS.Mapped(c, q, k)
                            ==> MS.PageBytes(g, e, q, k) == MS.PageBytes(g, c, q, k)
    ensures AllHold(g, e, qs, less)
    ensures OwnHeld(g, e, Without(own, pid)) && NotOwn(qs, Without(own, pid))
  {
    hide MS.CoreInv, MS.PageBytes, MS.Mapped, Without;
    forall i | 0 <= i < |qs|
      ensures qs[i].key !in own
    {
      assert qs[i] in ps;
    }
    forall i | 0 <= i < |qs| && qs[i].key.pid in less
      ensures Holds(g, e, qs[i])
    {
      assert qs[i] in ps;
      var j :| 0 <= j < |ps| && ps[j] == qs[i];
      assert Holds(g, c, ps[j]);
    }
  }

  lemma {:induction false} DropsAgree(ps: seq<Page>, as': seq<Admin>, pid: int)
    requires |ps| == |as'|
    requires forall i :: 0 <= i < |ps| ==> as'[i] == Admin(ps[i].key.page, ps[i].key.pid, ps[i].available)
    ensures var qs, bs := DropSkipping(ps, (g: Page) => g.key.pid == pid), DropSkipping(as', (a: Admin) => a.pid == pid);
      && |qs| == |bs|
      && forall i :: 0 <= i < |qs| ==> bs[i] == Admin(qs[i].key.page, qs[i].key.pid, qs[i].available)
  {
    if ps != [] {
      if ps[0].key.pid != pid {
        DropsAgree(ps[1..], as'[1..], pid);
      } else if |ps| > 1 {
        DropsAgree(ps[2..], as'[2..], pid);
      }
    }
  }
}
