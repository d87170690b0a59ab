/** The kernel heap as a state machine: the administrative list of heap pages, the
    bytes of those pages and the accounting record of each process. */
module Heap {
  import opened Bytes
  import opened HeapPage
  import opened PageOps

  datatype Key = Key(pid: int, page: int)

  /** An entry of listaAdmHeap together with the page it administers. */
  datatype Page = Page(key: Key, available: int, bytes: seq<Byte>, blocks: seq<Block>)

  /** Headers tile the page and sizeDisponible is the free total. */
  ghost predicate Tiled(P: nat, g: Page) {
    && |g.bytes| == P
    && Lays(g.bytes, 0, g.blocks) && Span(g.blocks) == P
    && g.available == FreeBytes(g.blocks)
  }

  /** A page between two requests. */
  ghost predicate PageInv(P: nat, g: Page) {
    Tiled(P, g) && |g.blocks| >= 2
  }

  ghost predicate DistinctKeys(ps: seq<Page>) {
    forall i, j :: 0 <= i < j < |ps| ==> ps[i].key != ps[j].key
  }

  ghost predicate PagesInv(P: nat, ps: seq<Page>) {
    && (forall j :: 0 <= j < |ps| ==> PageInv(P, ps[j]))
    && DistinctKeys(ps)
  }

  // ----- one page -----

  function CompactPage(g: Page): (h: Page)
    requires IsInt(|g.bytes|) && |g.blocks| >= 2 && Span(g.blocks) <= |g.bytes|
  {
    var c := CompactPageBlocks(g.blocks);
    Page(g.key, g.available + META * (|g.blocks| - |c|), CompactPageBytes(g.bytes, g.blocks), c)
  }

  /** Offset of the k-th header. */
  function HeaderAt(g: Page, k: nat): nat
    requires k <= |g.blocks|
  {
    Span(g.blocks[..k])
  }

  function Carve(g: Page, k: nat, size: nat): Page
    requires k < |g.blocks| && g.blocks[k].size >= size + META
    requires IsInt(|g.bytes|) && HeaderAt(g, k) + META + g.blocks[k].size <= |g.bytes|
  {
    Page(g.key, g.available - size - META,
         SplitBytes(g.bytes, HeaderAt(g, k), g.blocks[k].size, size),
         SplitBlocks(g.blocks, k, size))
  }

  function FreePage(g: Page, k: nat): Page
    requires k < |g.blocks| && IsInt(g.blocks[k].size) && HeaderAt(g, k) + META <= |g.bytes|
  {
    var b := Block(false, g.blocks[k].size);
    Page(g.key, g.available + b.size, Paste(g.bytes, HeaderAt(g, k), Meta(b)), g.blocks[k := b])
  }

  function FreshPage(P: nat, key: Key, stale: seq<Byte>): Page
    requires |stale| == P && META <= P && IsInt(P)
  {
    var b := Block(false, P - META);
    Page(key, P - META, Paste(stale, 0, Meta(b)), [b])
  }

  // ----- the payloads a program owns -----

  ghost function Payloads(g: Page): map<int, seq<Byte>>
    requires Span(g.blocks) <= |g.bytes|
  {
    Live(g.bytes, 0, g.blocks)
  }

  ghost function Contents(P: nat, ps: seq<Page>, key: Key): map<int, seq<Byte>>
    requires PagesInv(P, ps)
  {
    if g :| g in ps && g.key == key then Payloads(g) else map[]
  }

  lemma ContentsOf(P: nat, ps: seq<Page>, g: Page)
    requires PagesInv(P, ps) && g in ps
    ensures Contents(P, ps, g.key) == Payloads(g)
  {
    var i :| 0 <= i < |ps| && ps[i] == g;
    forall h | h in ps && h.key == g.key
      ensures h == g
    {
      var j :| 0 <= j < |ps| && ps[j] == h;
      assert i == j;
    }
  }

  /** h is g with its live payloads where and what they were. */
  ghost predicate SameLive(g: Page, h: Page) {
    && h.key == g.key
    && LiveCount(h.blocks) == LiveCount(g.blocks)
    && LiveBytes(h.blocks) == LiveBytes(g.blocks)
    && Span(g.blocks) <= |g.bytes| && Span(h.blocks) <= |h.bytes|
    && Payloads(h) == Payloads(g)
  }

  lemma CompactPageKeeps(P: nat, g: Page)
    requires PageInv(P, g)
    ensures IsInt(P)
    ensures Tiled(P, CompactPage(g)) && SameLive(g, CompactPage(g))
  {
    hide Lays, Live, Span, CompactPageBlocks, CompactPageBytes, FreeBytes;
    PageInts(g.bytes, g.blocks);
    CompactPageCorrect(g.bytes, g.blocks);
  }

  lemma PageInts(p: seq<Byte>, bs: seq<Block>)
    requires Lays(p, 0, bs)
    ensures IsInt(|p|)
  {
  }

  /** A request of at most P - 16 bytes always fits in a page left with one block, so a
      page that refuses it still has two. */
  lemma SingleBlockFits(P: nat, g: Page, size: nat)
    requires PageInv(P, g) && size + 2 * META <= P
    ensures IsInt(P)
    ensures |CompactPage(g).blocks| >= 2 || FirstFit(CompactPage(g).blocks, size) >= 0
  {
    PageInts(g.bytes, g.blocks);
    var c := CompactPageBlocks(g.blocks);
    CompactPageCorrect(g.bytes, g.blocks);
    if |c| < 2 {
      assert c == [c[0]];
      OneBlock(c[0]);
    }
  }

  lemma HeaderFits(P: nat, g: Page, k: nat)
    requires Tiled(P, g) && k < |g.blocks|
    ensures IsInt(P) && IsInt(g.blocks[k].size)
    ensures HeaderAt(g, k) + META + g.blocks[k].size <= P
  {
    LaysMiddle(g.bytes, g.blocks, k);
  }

  /** Carving size bytes out of the chosen block adds one payload of exactly that size,
      leaves the others alone, and pays size plus one header from the counter. */
  lemma CarveKeeps(P: nat, g: Page, k: nat, size: nat)
    requires Tiled(P, g) && k < |g.blocks| && !g.blocks[k].used && g.blocks[k].size >= size + META
    ensures IsInt(P) && HeaderAt(g, k) + META + g.blocks[k].size <= P
    ensures var h, off := Carve(g, k, size), HeaderAt(g, k) + META;
      && PageInv(P, h) && h.key == g.key
      && LiveCount(h.blocks) == LiveCount(g.blocks) + 1
      && LiveBytes(h.blocks) == LiveBytes(g.blocks) + size
      && off !in Payloads(g)
      && Payloads(h) == Payloads(g)[off := g.bytes[off..off + size]]
  {
    hide Lays, Live, Span, FreeBytes, LiveCount, LiveBytes, SplitBytes;
    HeaderFits(P, g, k);
    SplitCorrect(g.bytes, g.blocks, k, size, HeaderAt(g, k));
  }

  lemma FreeKeeps(P: nat, g: Page, k: nat)
    requires PageInv(P, g) && k < |g.blocks| && g.blocks[k].used
    ensures IsInt(g.blocks[k].size) && HeaderAt(g, k) + META <= P
    ensures var h, off := FreePage(g, k), HeaderAt(g, k) + META;
      && PageInv(P, h) && h.key == g.key
      && LiveCount(h.blocks) == LiveCount(g.blocks) - 1
      && LiveBytes(h.blocks) == LiveBytes(g.blocks) - g.blocks[k].size
      && off in Payloads(g)
      && Payloads(h) == Payloads(g) - {off}
  {
    hide Lays, Live, Span, FreeBytes, LiveCount, LiveBytes;
    HeaderFits(P, g, k);
    FreeCorrect(g.bytes, g.blocks, k);
  }

  lemma FreshTiled(P: nat, key: Key, stale: seq<Byte>)
    requires |stale| == P && META <= P && IsInt(P)
    ensures FreshPage(P, key, stale).key == key
    ensures Tiled(P, FreshPage(P, key, stale))
    ensures Payloads(FreshPage(P, key, stale)) == map[]
    ensures LiveCount(FreshPage(P, key, stale).blocks) == 0
    ensures LiveBytes(FreshPage(P, key, stale).blocks) == 0
  {
    var b := Block(false, P - META);
    LaysOne(stale, 0, b);
    OneBlock(b);
    LiveOne(Paste(stale, 0, Meta(b)), 0, b);
  }

  // ----- verificarEspacioLibreHeap -----

  /** Walks the list from entry i on: a page of the process with enough free bytes is
      compacted and then searched for one block that fits. Result: the list as the walk
      leaves it, and the entry found or -1. */
  function Search(P: nat, ps: seq<Page>, i: nat, pid: int, size: nat): (r: (seq<Page>, int))
    requires IsInt(P)
    requires forall j :: 0 <= j < |ps| ==> PageInv(P, ps[j])
    requires i <= |ps|
    ensures |r.0| == |ps| && -1 <= r.1 < |ps|
    decreases |ps| - i
  {
    if i == |ps| then (ps, -1)
    else if ps[i].available >= size + META && ps[i].key.pid == pid then
      assert PageInv(P, ps[i]);
      var g := CompactPage(ps[i]);
      if FirstFit(g.blocks, size) >= 0 then (ps[i := g], i)
      else
        var r := Search(P, ps, i + 1, pid, size);
        (r.0[i := g], r.1)
    else Search(P, ps, i + 1, pid, size)
  }

  /** What the search guarantees: only pages of the process from entry i on are touched,
      their live payloads never; the entry found has a block that fits; and every entry
      passed over was short of free bytes or, once compacted, had no single fit. */
  lemma {:induction false} SearchCorrect(P: nat, ps: seq<Page>, i: nat, pid: int, size: nat)
    requires forall j :: 0 <= j < |ps| ==> PageInv(P, ps[j])
    requires IsInt(P) && i <= |ps| && size + 2 * META <= P
    ensures var (qs, f) := Search(P, ps, i, pid, size);
      && (forall j :: 0 <= j < |ps| ==> SameLive(ps[j], qs[j]) && Tiled(P, qs[j]))
      && (forall j :: 0 <= j < |ps| && (j < i || ps[j].key.pid != pid) ==> qs[j] == ps[j])
      && (forall j :: 0 <= j < |ps| && j != f ==> PageInv(P, qs[j]))
      && (f >= 0 ==> i <= f && ps[f].key.pid == pid && FirstFit(qs[f].blocks, size) >= 0)
      && (forall j :: i <= j < (if f < 0 then |ps| else f) && ps[j].key.pid == pid ==>
            ps[j].available < size + META || FirstFit(qs[j].blocks, size) < 0)
    decreases |ps| - i
  {
    hide FirstFit, CompactPage, Tiled, SameLive, PageInv;
    forall j | 0 <= j < |ps|
      ensures Tiled(P, ps[j]) && SameLive(ps[j], ps[j])
    {
      BetweenRequests(P, ps[j]);
    }
    if i < |ps| {
      SearchCorrect(P, ps, i + 1, pid, size);
      BetweenRequests(P, ps[i]);
      CompactPageKeeps(P, ps[i]);
      SingleBlockFits(P, ps[i], size);
      var g := CompactPage(ps[i]);
      assert |g.blocks| >= 2 ==> PageInv(P, g) by { StillTwo(P, g); }
    }
  }

  lemma BetweenRequests(P: nat, g: Page)
    requires PageInv(P, g)
    ensures Tiled(P, g) && SameLive(g, g)
    ensures IsInt(|g.bytes|) && |g.blocks| >= 2 && Span(g.blocks) <= |g.bytes|
  {
  }

  lemma StillTwo(P: nat, g: Page)
    requires Tiled(P, g)
    ensures |g.blocks| >= 2 ==> PageInv(P, g)
  {
  }

  /** From entry i on no page of the process can serve the request: each is short of free
      bytes or, once compacted, has no single block that fits. */
  ghost predicate NoFit(P: nat, ps: seq<Page>, i: nat, pid: int, size: nat)
    requires forall j :: 0 <= j < |ps| ==> PageInv(P, ps[j])
    requires IsInt(P)
  {
    forall j :: i <= j < |ps| && ps[j].key.pid == pid ==> Useless(P, ps[j], size)
  }

  ghost predicate Useless(P: nat, g: Page, size: nat)
    requires PageInv(P, g)
  {
    g.available < size + META || FirstFit(CompactPage(g).blocks, size) < 0
  }

  /** The search fails iff no page can serve the request. */
  lemma {:induction false} SearchFailsIff(P: nat, ps: seq<Page>, i: nat, pid: int, size: nat)
    requires forall j :: 0 <= j < |ps| ==> PageInv(P, ps[j])
    requires IsInt(P) && i <= |ps|
    ensures Search(P, ps, i, pid, size).1 < 0 <==> NoFit(P, ps, i, pid, size)
    decreases |ps| - i
  {
    hide FirstFit, CompactPage;
    if i < |ps| {
      SearchFailsIff(P, ps, i + 1, pid, size);
    }
  }

  // ----- pages of a process, counted -----

  datatype Tally = Tally(pages: int, blocks: int, bytes: int) {
    function Plus(t: Tally): Tally {
      Tally(pages + t.pages, blocks + t.blocks, bytes + t.bytes)
    }
  }

  function TallyPage(g: Page, pid: int): Tally {
    if g.key.pid == pid then Tally(1, LiveCount(g.blocks), LiveBytes(g.blocks)) else Tally(0, 0, 0)
  }

  /** Heap pages, live blocks and live bytes of a process. */
  function TallyOf(ps: seq<Page>, pid: int): (t: Tally)
    ensures t.pages >= 0 && t.blocks >= 0 && t.bytes >= 0
  {
    if ps == [] then Tally(0, 0, 0) else TallyPage(ps[0], pid).Plus(TallyOf(ps[1..], pid))
  }

  lemma {:induction false} TallySame(ps: seq<Page>, qs: seq<Page>, pid: int)
    requires |ps| == |qs| && forall j :: 0 <= j < |ps| ==> TallyPage(ps[j], pid) == TallyPage(qs[j], pid)
    ensures TallyOf(ps, pid) == TallyOf(qs, pid)
  {
    if ps != [] {
      TallySame(ps[1..], qs[1..], pid);
    }
  }

  lemma {:induction false} TallyUpdate(ps: seq<Page>, i: nat, g: Page, pid: int)
    requires i < |ps|
    ensures TallyOf(ps[i := g], pid).Plus(TallyPage(ps[i], pid)) == TallyOf(ps, pid).Plus(TallyPage(g, pid))
  {
    hide TallyPage;
    if i > 0 {
      TallyUpdate(ps[1..], i - 1, g, pid);
      assert ps[i := g][1..] == ps[1..][i - 1 := g];
    } else {
      assert ps[i := g][1..] == ps[1..];
    }
  }

  lemma {:induction false} TallyAppend(ps: seq<Page>, g: Page, pid: int)
    ensures TallyOf(ps + [g], pid) == TallyOf(ps, pid).Plus(TallyPage(g, pid))
  {
    hide TallyPage;
    if ps == [] {
      assert [g][1..] == [];
      assert ps + [g] == [g];
    } else {
      TallyAppend(ps[1..], g, pid);
      assert (ps + [g])[1..] == ps[1..] + [g];
    }
  }
}
