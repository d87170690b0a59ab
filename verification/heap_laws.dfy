/** Which page and block each heap request takes, what it charges, and what it leaves as it
    was. */
module HeapLaws {
  import opened Bytes
  import opened Lists
  import opened HeapPage
  import opened PageOps
  import opened Heap
  import opened HeapRuns
  import opened HeapTheorems

  // ----- what is written -----

  /** Outside n bytes from here and as many from there, the bytes are the same. */
  ghost predicate SameBut(p: seq<Byte>, q: seq<Byte>, here: int, there: int, n: nat) {
    |q| == |p|
    && forall x :: 0 <= x < |p| && !(here <= x < here + n) && !(there <= x < there + n) ==> q[x] == p[x]
  }

  /** Outside the headers of these blocks the bytes are the same. */
  ghost predicate OnlyHeaders(p: seq<Byte>, q: seq<Byte>, off: nat, bs: seq<Block>)
    requires off + Span(bs) <= |p| == |q|
    decreases bs
  {
    bs == [] || (q[off + META..off + META + bs[0].size] == p[off + META..off + META + bs[0].size]
                 && OnlyHeaders(p, q, off + META + bs[0].size, bs[1..]))
  }

  lemma {:induction false} SameBehind(p: seq<Byte>, p': seq<Byte>, q: seq<Byte>, off: nat, bs: seq<Block>)
    requires off + Span(bs) <= |p| == |p'| == |q| && OnlyHeaders(p, q, off, bs)
    requires forall k :: off <= k < |p| ==> p'[k] == p[k]
    ensures OnlyHeaders(p', q, off, bs)
    decreases bs
  {
    if bs != [] {
      SameBehind(p, p', q, off + META + bs[0].size, bs[1..]);
    }
  }

  lemma {:induction false} Untouched(p: seq<Byte>, off: nat, bs: seq<Block>)
    requires off + Span(bs) <= |p|
    ensures OnlyHeaders(p, p, off, bs)
    decreases bs
  {
    if bs != [] {
      Untouched(p, off + META + bs[0].size, bs[1..]);
    }
  }

  /** Compaction writes headers, of the blocks it leaves, and nothing else. */
  lemma {:induction false} WalkTouches(p: seq<Byte>, off: nat, a: Block, r: seq<Block>)
    requires Lays(p, off, [a] + r)
    ensures off + META + a.size + Span(r) <= |p|
    ensures off + Span(CompactBlocks(a, r)) <= |p|
    ensures OnlyHeaders(p, CompactBytes(p, off, a, r), off, CompactBlocks(a, r))
    decreases |r|
  {
    hide Lays, Live, Meta, Paste, OnlyHeaders;
    CompactCorrect(p, off, a, r);
    WalkSpans(p, off, a, r);
    if Span(r) <= META {
      Untouched(p, off, [a] + r);
    } else if !a.used && !r[0].used {
      var m := Merge(a, r[0]);
      assert [a] + r == [a, r[0]] + r[1..];
      MergeStep(p, off, a, r[0], r[1..]);
      var p1 := Paste(p, off, Meta(m));
      WalkTouches(p1, off, m, r[1..]);
      CompactCorrect(p1, off, m, r[1..]);
      var c := CompactBlocks(m, r[1..]);
      FirstHeader(p, p1, CompactBytes(p1, off, m, r[1..]), off, Meta(m), c);
    } else {
      var x := off + META + a.size;
      assert r == [r[0]] + r[1..];
      LaysAppend(p, off, [a], x, r);
      WalkTouches(p, x, r[0], r[1..]);
      CompactCorrect(p, x, r[0], r[1..]);
      PastTouches(p, CompactBytes(p, x, r[0], r[1..]), off, a, CompactBlocks(r[0], r[1..]));
    }
  }

  lemma PastTouches(p: seq<Byte>, q: seq<Byte>, off: nat, a: Block, c: seq<Block>)
    requires off + META + a.size + Span(c) <= |p| == |q|
    requires OnlyHeaders(p, q, off + META + a.size, c)
    requires forall k :: off <= k < off + META + a.size ==> q[k] == p[k]
    ensures off + Span([a] + c) <= |p| && OnlyHeaders(p, q, off, [a] + c)
  {
    assert ([a] + c)[1..] == c;
    assert q[off + META..off + META + a.size] == p[off + META..off + META + a.size];
  }

  lemma WalkSpans(p: seq<Byte>, off: nat, a: Block, r: seq<Block>)
    requires Lays(p, off, [a] + r)
    ensures IsInt(|p|) && off + META + a.size + Span(r) <= |p| && Span([a]) == META + a.size
    ensures r != [] ==> Span(r) == META + r[0].size + Span(r[1..])
  {
    assert ([a] + r)[1..] == r;
    OneBlock(a);
  }

  /** A header written over the first block is a header of it. */
  lemma FirstHeader(p: seq<Byte>, p1: seq<Byte>, q: seq<Byte>, off: nat, d: seq<Byte>, c: seq<Block>)
    requires off + Span(c) <= |p| == |p1| == |q| && c != [] && |d| == META && off + META <= |p|
    requires p1 == Paste(p, off, d) && OnlyHeaders(p1, q, off, c)
    ensures OnlyHeaders(p, q, off, c)
  {
    hide OnlyHeaders, Paste;
    var x := off + META + c[0].size;
    forall k | off + META <= k < |p|
      ensures p[k] == p1[k]
    {
      PasteByte(p, off, d, k);
    }
    FirstAndRest(p1, q, off, c);
    SameBehind(p1, p, q, x, c[1..]);
    assert p[off + META..x] == p1[off + META..x];
    FirstAndRest(p, q, off, c);
  }

  lemma FirstAndRest(p: seq<Byte>, q: seq<Byte>, off: nat, bs: seq<Block>)
    requires bs != [] && off + Span(bs) <= |p| == |q|
    ensures Span(bs) == META + bs[0].size + Span(bs[1..])
    ensures OnlyHeaders(p, q, off, bs)
       <==> q[off + META..off + META + bs[0].size] == p[off + META..off + META + bs[0].size]
            && OnlyHeaders(p, q, off + META + bs[0].size, bs[1..])
  {
  }

  lemma PageTouches(p: seq<Byte>, bs: seq<Block>)
    requires PageOk(p, bs)
    ensures Span(CompactPageBlocks(bs)) == |p|
    ensures OnlyHeaders(p, CompactPageBytes(p, bs), 0, CompactPageBlocks(bs))
  {
    hide Lays, Live, Meta, Paste, OnlyHeaders, CompactBlocks, CompactBytes, Span, LiveCount, LiveBytes, FreeBytes;
    var a, b, r := bs[0], bs[1], bs[2..];
    assert bs == [a, b] + r == [a] + ([b] + r);
    assert bs[1..] == [b] + r;
    PageInts(p, bs);
    CompactPageCorrect(p, bs);
    if !a.used && !b.used {
      MergeStep(p, 0, a, b, r);
      var p1 := Paste(p, 0, Meta(Merge(a, b)));
      WalkTouches(p1, 0, Merge(a, b), r);
      CompactCorrect(p1, 0, Merge(a, b), r);
      FirstHeader(p, p1, CompactPageBytes(p, bs), 0, Meta(Merge(a, b)), CompactBlocks(Merge(a, b), r));
    } else {
      OneBlock(a);
      LaysAppend(p, 0, [a], META + a.size, [b] + r);
      WalkTouches(p, META + a.size, b, r);
      CompactCorrect(p, META + a.size, b, r);
      PastTouches(p, CompactBytes(p, META + a.size, b, r), 0, a, CompactBlocks(b, r));
    }
  }

  // ----- allocation -----

  /** The search compacts the pages of the process that have enough free bytes, in the order
      of the list, up to the first that then has a block that fits, and touches no other. */
  lemma {:induction false} SearchExact(P: nat, ps: seq<Page>, i: nat, pid: int, size: nat)
    requires forall j :: 0 <= j < |ps| ==> PageInv(P, ps[j])
    requires IsInt(P) && i <= |ps|
    ensures var (qs, f) := Search(P, ps, i, pid, size);
      && (forall j :: 0 <= j < |ps| ==>
            qs[j] == if i <= j && (f < 0 || j <= f) && ps[j].key.pid == pid && ps[j].available >= size + META
                     then CompactPage(ps[j]) else ps[j])
      && (f >= 0 ==> i <= f && ps[f].key.pid == pid && !Useless(P, ps[f], size))
      && (forall j :: i <= j < (if f < 0 then |ps| else f) && ps[j].key.pid == pid ==> Useless(P, ps[j], size))
    decreases |ps| - i
  {
    hide FirstFit, CompactPage, Tiled;
    if i < |ps| {
      SearchExact(P, ps, i + 1, pid, size);
    }
  }

  /** Entry i of the list is the first page of the process that can serve the request, or i is
      -1 and none can. */
  ghost predicate FirstUseful(P: nat, ps: seq<Page>, pid: int, size: nat, i: int)
    requires (forall j :: 0 <= j < |ps| ==> PageInv(P, ps[j])) && IsInt(P)
  {
    && -1 <= i < |ps|
    && (i >= 0 ==> ps[i].key.pid == pid && !Useless(P, ps[i], size))
    && (forall j :: 0 <= j < (if i < 0 then |ps| else i) && ps[j].key.pid == pid ==> Useless(P, ps[j], size))
  }

  /** Where a request goes. A request over the limit changes nothing. One that some page of
      the process can serve goes to the first such page, into the first block there that fits
      once the page is compacted, and no page is asked for, whatever Memory would answer. One
      that none can serve goes to the start of a new page, numbered behind the others, whose
      bytes are what the frame held, or is refused. Of the pages there were only those of the
      process up to the one chosen may be compacted; no other entry changes. */
  lemma AllocateWhere(cfg: Config, s: State, pid: int, size: int, grant: Grant) returns (i: int)
    requires Inv(cfg, s) && Enabled(cfg, s, EvAllocate(pid, size, grant))
    ensures IsInt(cfg.pageSize) && pid in s.granted
    ensures forall j :: 0 <= j < |s.pages| ==> PageInv(cfg.pageSize, s.pages[j])
    ensures var (t, o) := Allocate(cfg, s, pid, size, grant); var n := NextPage(cfg, s.procs[pid]);
      && t.started == s.started && |t.pages| >= |s.pages|
      && (forall j :: 0 <= j < |s.pages| ==> t.pages[j].key == s.pages[j].key)
      && if size < 0 || size + 2 * META > cfg.pageSize then o == TooBig && t == s
         else
           && FirstUseful(cfg.pageSize, s.pages, pid, size, i)
           && (forall j :: 0 <= j < |s.pages| && j != i ==>
                 t.pages[j] == if s.pages[j].key.pid == pid && (i < 0 || j < i) && s.pages[j].available >= size + META
                               then CompactPage(s.pages[j]) else s.pages[j])
           && if i >= 0 then
                var g := CompactPage(s.pages[i]); var k := FirstFit(g.blocks, size);
                && k >= 0 && o == Placed(s.pages[i].key.page, HeaderAt(g, k) + META)
                && t.pages[i].blocks == SplitBlocks(g.blocks, k, size)
                && SameBut(g.bytes, t.pages[i].bytes, HeaderAt(g, k), HeaderAt(g, k) + META + size, META)
                && |t.pages| == |s.pages| && t.granted == s.granted
                && t.procs[pid].account.heapPages == s.procs[pid].account.heapPages
              else if grant.Frame? then
                && o == Placed(n, META) && |t.pages| == |s.pages| + 1 && t.pages[|s.pages|].key == Key(pid, n)
                && t.pages[|s.pages|].blocks == [Block(true, size), Block(false, cfg.pageSize - 2 * META - size)]
                && META + size <= cfg.pageSize == |t.pages[|s.pages|].bytes|
                && t.pages[|s.pages|].bytes[META..META + size] == grant.stale[META..META + size]
                && t.granted == s.granted[pid := s.granted[pid] + 1]
                && t.procs[pid].account.heapPages == s.procs[pid].account.heapPages + 1
              else
                && o == NoPage && |t.pages| == |s.pages| && t.granted == s.granted
                && t.procs[pid].account.heapPages == s.procs[pid].account.heapPages
  {
    hide Search, FirstFit, Carve, FreshPage, PageInv, DistinctKeys, OverLimit, CompactPage, SplitBlocks, SameBut;
    InvFacts(cfg, s, pid);
    OverLimitIff(cfg.pageSize, size);
    i := -1;
    if !OverLimit(cfg.pageSize, size) {
      SearchExact(cfg.pageSize, s.pages, 0, pid, size);
      i := Search(cfg.pageSize, s.pages, 0, pid, size).1;
      Keys(cfg.pageSize, s.pages);
      if i >= 0 {
        CarvedAt(cfg.pageSize, s.pages[i], size);
      } else if grant.Frame? {
        FreshCarved(cfg.pageSize, Key(pid, NextPage(cfg, s.procs[pid])), grant.stale, size);
      }
    }
  }

  lemma Keys(P: nat, ps: seq<Page>)
    requires (forall j :: 0 <= j < |ps| ==> PageInv(P, ps[j])) && IsInt(P)
    ensures forall j :: 0 <= j < |ps| ==>
              |ps[j].blocks| >= 2 && Span(ps[j].blocks) <= |ps[j].bytes| && IsInt(|ps[j].bytes|)
              && CompactPage(ps[j]).key == ps[j].key
  {
  }

  lemma CarvedAt(P: nat, g: Page, size: nat)
    requires PageInv(P, g) && IsInt(P) && !Useless(P, g, size)
    ensures |g.blocks| >= 2 && Span(g.blocks) <= |g.bytes| && IsInt(|g.bytes|)
    ensures var h := CompactPage(g); var k := FirstFit(h.blocks, size);
      && k >= 0 && IsInt(|h.bytes|) && HeaderAt(h, k) + META + h.blocks[k].size <= |h.bytes|
      && Carve(h, k, size).blocks == SplitBlocks(h.blocks, k, size) && Carve(h, k, size).key == g.key
      && SameBut(h.bytes, Carve(h, k, size).bytes, HeaderAt(h, k), HeaderAt(h, k) + META + size, META)
  {
    hide CompactPageBlocks, CompactPageBytes, SplitBlocks, SplitBytes, SameBut;
    CompactPageKeeps(P, g);
    var h := CompactPage(g);
    var k := FirstFit(h.blocks, size);
    HeaderFits(P, h, k);
    SplitTouches(h.bytes, HeaderAt(h, k), h.blocks[k].size, size);
  }

  lemma SplitTouches(p: seq<Byte>, off: nat, was: nat, size: nat)
    requires IsInt(|p|) && was >= size + META && off + META + was <= |p|
    ensures SameBut(p, SplitBytes(p, off, was, size), off, off + META + size, META)
  {
    hide Meta, Paste;
    var d, e := Meta(Block(true, size)), Meta(Block(false, was - size - META));
    forall x | 0 <= x < |p| && !(off <= x < off + META) && !(off + META + size <= x < off + META + size + META)
      ensures SplitBytes(p, off, was, size)[x] == p[x]
    {
      PasteByte(p, off, d, x);
      PasteByte(Paste(p, off, d), off + META + size, e, x);
    }
  }

  lemma FreshCarved(P: nat, key: Key, stale: seq<Byte>, size: nat)
    requires |stale| == P && IsInt(P) && size + 2 * META <= P
    ensures var g := FreshPage(P, key, stale);
      && |g.blocks| == 1 && !g.blocks[0].used && g.blocks[0].size >= size + META
      && HeaderAt(g, 0) == 0 && META + g.blocks[0].size <= |g.bytes| == P && g.key == key
    ensures var h := Carve(FreshPage(P, key, stale), 0, size);
      && h.key == key && |h.bytes| == P
      && h.blocks == [Block(true, size), Block(false, P - 2 * META - size)]
      && h.bytes[META..META + size] == stale[META..META + size]
  {
    hide Meta;
    var g := FreshPage(P, key, stale);
    assert g.blocks[..0] == [];
    var m1, m2, m3 := Meta(Block(false, P - META)), Meta(Block(true, size)), Meta(Block(false, P - META - size - META));
    PasteElsewhere(stale, 0, m1, META, META + size);
    PasteElsewhere(g.bytes, 0, m2, META, META + size);
    PasteElsewhere(Paste(g.bytes, 0, m2), META + size, m3, META, META + size);
  }

  // ----- the other requests -----

  lemma PasteTouches(p: seq<Byte>, at: nat, d: seq<Byte>)
    requires at + |d| <= |p|
    ensures SameBut(p, Paste(p, at, d), at, at, |d|)
  {
    forall x | 0 <= x < |p| && !(at <= x < at + |d|)
      ensures Paste(p, at, d)[x] == p[x]
    {
      PasteByte(p, at, d, x);
    }
  }

  /** Freeing marks the block free and merges nothing; no other page changes, and the process
      is charged one call and one release of that size, no other process anything. */
  lemma ReleaseWhere(cfg: Config, s: State, key: Key, off: int) returns (i: nat, k: nat)
    requires Inv(cfg, s) && key.pid in s.procs && Owned(cfg, s, key, off)
    ensures i < |s.pages| && s.pages[i].key == key && k < |s.pages[i].blocks|
    ensures HeaderAt(s.pages[i], k) + META == off && s.pages[i].blocks[k].used
    ensures var t, size := Release(cfg, s, key, off), s.pages[i].blocks[k].size;
      && |t.pages| == |s.pages| && (forall j :: 0 <= j < |s.pages| && j != i ==> t.pages[j] == s.pages[j])
      && t.pages[i].key == key && t.pages[i].blocks == s.pages[i].blocks[k := Block(false, size)]
      && SameBut(s.pages[i].bytes, t.pages[i].bytes, off - META, off - META, META)
      && t.started == s.started && t.granted == s.granted && t.procs.Keys == s.procs.Keys
      && (forall q :: q in s.procs && q != key.pid ==> t.procs[q] == s.procs[q])
      && t.procs[key.pid] == s.procs[key.pid].(account := s.procs[key.pid].account.(
           frees := s.procs[key.pid].account.frees + 1,
           freeBytes := s.procs[key.pid].account.freeBytes + size,
           sysCalls := s.procs[key.pid].account.sysCalls + 1))
  {
    hide Contents, HeaderAt, Linked, SameBut, Paste, Meta;
    OwnedBlock(cfg, s, key, off);
    i := PageIndex(s.pages, key);
    k := BlockAt(s.pages[i].blocks, off);
    HeaderFits(cfg.pageSize, s.pages[i], k);
    PasteTouches(s.pages[i].bytes, off - META, Meta(Block(false, s.pages[i].blocks[k].size)));
  }

  /** A store changes bytes of one page and nothing the kernel keeps. */
  lemma StoreWhere(cfg: Config, s: State, e: Event) returns (i: nat)
    requires Inv(cfg, s) && e.EvStore? && Enabled(cfg, s, e)
    ensures i < |s.pages| && s.pages[i].key == Key(e.pid, e.page)
    ensures var t := Step(cfg, s, e);
      && |t.pages| == |s.pages| && (forall j :: 0 <= j < |s.pages| && j != i ==> t.pages[j] == s.pages[j])
      && t.pages[i] == s.pages[i].(bytes := t.pages[i].bytes)
      && SameBut(s.pages[i].bytes, t.pages[i].bytes, e.at, e.at, |e.d|)
      && t.procs == s.procs && t.started == s.started && t.granted == s.granted
  {
    hide Contents, Linked, Paste, SameBut;
    var key := Key(e.pid, e.page);
    OwnedBlock(cfg, s, key, e.offset);
    i := PageIndex(s.pages, key);
    HeaderFits(cfg.pageSize, s.pages[i], BlockAt(s.pages[i].blocks, e.offset));
    PasteTouches(s.pages[i].bytes, e.at, e.d);
  }

  /** A process starts with nothing charged, and its first heap page will be the one behind
      its code and stack; nothing of any other process changes. */
  lemma StartWhere(cfg: Config, s: State, pid: int, codePages: nat)
    requires Inv(cfg, s) && pid !in s.started
    ensures var t := Start(cfg, s, pid, codePages);
      && t.pages == s.pages && t.started == s.started + {pid} && t.procs.Keys == s.procs.Keys + {pid}
      && (forall q :: q in s.procs ==> t.procs[q] == s.procs[q])
      && (forall q :: q in s.granted && q != pid ==> q in t.granted && t.granted[q] == s.granted[q])
      && (var a := t.procs[pid].account;
          a.heapPages == a.allocs == a.allocBytes == a.frees == a.freeBytes == a.sysCalls == 0)
      && pid in t.granted && t.granted[pid] == NextPage(cfg, t.procs[pid]) == codePages + cfg.stackPages
      && t.procs[pid].codePages == codePages
  {
    hide PagesInv, Linked;
  }

  /** A process that ends is gone from the books; nothing of any other changes, and its pid is
      not given again. */
  lemma FinishWhere(cfg: Config, s: State, pid: int)
    requires Inv(cfg, s) && pid in s.procs
    ensures var t := Finish(s, pid);
      && t.procs.Keys == s.procs.Keys - {pid} && pid !in t.granted && t.started == s.started && pid in t.started
      && (forall q :: q in s.procs && q != pid ==> t.procs[q] == s.procs[q])
      && (forall q :: q in s.granted && q != pid ==> q in t.granted && t.granted[q] == s.granted[q])
      && (forall g <- t.pages :: g in s.pages) && (forall g <- s.pages :: g.key.pid != pid ==> g in t.pages)
  {
    hide Inv, Finish;
    FinishBooks(cfg, s, pid);
    FinishPages(cfg, s, pid);
  }

  lemma FinishBooks(cfg: Config, s: State, pid: int)
    requires Inv(cfg, s) && pid in s.procs
    ensures var t := Finish(s, pid);
      && t.procs.Keys == s.procs.Keys - {pid} && pid !in t.granted && t.started == s.started && pid in t.started
      && (forall q :: q in s.procs && q != pid ==> t.procs[q] == s.procs[q])
      && (forall q :: q in s.granted && q != pid ==> q in t.granted && t.granted[q] == s.granted[q])
  {
    hide PagesInv, Linked, DropSkipping;
    assert pid in s.procs.Keys;
  }

  lemma FinishPages(cfg: Config, s: State, pid: int)
    requires Inv(cfg, s)
    ensures (forall g <- Finish(s, pid).pages :: g in s.pages)
    ensures (forall g <- s.pages :: g.key.pid != pid ==> g in Finish(s, pid).pages)
  {
    hide PageInv, DistinctKeys, Linked, DropSkipping;
    DropKeeps(cfg.pageSize, s.pages, pid, pid + 1);
  }
}
