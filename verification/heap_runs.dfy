/** Requests on the heap, one atomic step each, and what holds over every run of them. */
module HeapRuns {
  import opened Bytes
  import opened Lists
  import opened HeapPage
  import opened PageOps
  import opened Heap

  datatype Config = Config(pageSize: nat, stackPages: nat)

  ghost predicate ConfigOk(cfg: Config) {
    2 * META < cfg.pageSize && IsInt(cfg.pageSize)
  }

  /** t_contable, without the burst counter that the heap never touches. */
  datatype Account = Account(heapPages: int, allocs: int, allocBytes: int,
                             frees: int, freeBytes: int, sysCalls: int)

  /** A process the kernel has admitted. The last two fields are history: requests that
      were answered with an exception for lack of a page, and their bytes. */
  datatype Process = Process(codePages: nat, account: Account, refused: nat, refusedBytes: nat)

  /** granted is the number of pages the memory server has given each process. */
  datatype State = State(pages: seq<Page>, procs: map<int, Process>,
                         started: set<int>, granted: map<int, int>)

  /** The memory server's answer to a request for one page: none, or a frame with
      whatever bytes it last held. */
  datatype Grant = Refused | Frame(stale: seq<Byte>)

  datatype Outcome = TooBig | NoPage | Placed(page: int, offset: int)

  // ----- gestionarAlocar -----

  /** The comparison is made on size_t, so a negative size is refused too. */
  predicate OverLimit(P: nat, size: int)
    requires 2 * META <= P && IsInt(P) && IsInt(size)
  {
    ToSizeT(size) > P - 2 * META
  }

  lemma OverLimitIff(P: nat, size: int)
    requires 2 * META <= P && IsInt(P) && IsInt(size)
    ensures OverLimit(P, size) <==> size < 0 || size + 2 * META > P
  {
    if size < 0 {
      assert ToSizeT(size) == size + TWO_TO_THE_64;
    }
  }

  /** obtenerPaginaSiguiente. */
  function NextPage(cfg: Config, p: Process): int {
    p.codePages + cfg.stackPages + p.account.heapPages
  }

  function ChargeAlloc(p: Process, size: int, newPages: int): Process {
    p.(account := p.account.(heapPages := p.account.heapPages + newPages,
                             allocs := p.account.allocs + 1,
                             allocBytes := p.account.allocBytes + size,
                             sysCalls := p.account.sysCalls + 1))
  }

  function ChargeFree(p: Process, size: int): Process {
    p.(account := p.account.(frees := p.account.frees + 1,
                             freeBytes := p.account.freeBytes + size,
                             sysCalls := p.account.sysCalls + 1))
  }

  function Allocate(cfg: Config, s: State, pid: int, size: int, grant: Grant): (r: (State, Outcome))
    requires ConfigOk(cfg) && PagesInv(cfg.pageSize, s.pages)
    requires pid in s.procs && pid in s.granted && IsInt(size)
    requires grant.Frame? ==> |grant.stale| == cfg.pageSize
  {
    var P, p := cfg.pageSize, s.procs[pid];
    if OverLimit(P, size) then (s, TooBig)
    else
      OverLimitIff(P, size);
      SearchCorrect(P, s.pages, 0, pid, size);
      var (qs, f) := Search(P, s.pages, 0, pid, size);
      if f >= 0 then
        var k := FirstFit(qs[f].blocks, size);
        HeaderFits(P, qs[f], k);
        (s.(pages := qs[f := Carve(qs[f], k, size)], procs := s.procs[pid := ChargeAlloc(p, size, 0)]),
         Placed(qs[f].key.page, HeaderAt(qs[f], k) + META))
      else match grant
        case Refused =>
          var c := ChargeAlloc(p, size, 0);
          (s.(pages := qs,
              procs := s.procs[pid := c.(refused := c.refused + 1, refusedBytes := c.refusedBytes + size)]),
           NoPage)
        case Frame(stale) =>
          FreshTiled(P, Key(pid, NextPage(cfg, p)), stale);
          var g := FreshPage(P, Key(pid, NextPage(cfg, p)), stale);
          HeaderFits(P, g, 0);
          (s.(pages := qs + [Carve(g, 0, size)],
              procs := s.procs[pid := ChargeAlloc(p, size, 1)],
              granted := s.granted[pid := s.granted[pid] + 1]),
           Placed(g.key.page, META))
  }

  // ----- gestionarLiberar, and a program storing into its block -----

  /** Index of the block whose payload starts at off, or -1. */
  function BlockAt(bs: seq<Block>, off: int): (k: int)
    ensures -1 <= k < |bs|
    ensures k >= 0 ==> Span(bs[..k]) + META == off
  {
    if bs == [] then -1
    else if off == META then 0
    else
      var k := BlockAt(bs[1..], off - META - bs[0].size);
      if k >= 0 then
        assert bs[..k + 1][1..] == bs[1..][..k];
        k + 1
      else -1
  }

  lemma {:induction false} LiveBlock(p: seq<Byte>, from: nat, bs: seq<Block>, off: int)
    requires from + Span(bs) <= |p|
    requires off in Live(p, from, bs)
    ensures BlockAt(bs, off - from) >= 0
    ensures bs[BlockAt(bs, off - from)].used
    ensures |Live(p, from, bs)[off]| == bs[BlockAt(bs, off - from)].size
    decreases bs
  {
    LiveKeys(p, from + META + bs[0].size, bs[1..]);
    if !(bs[0].used && off == from + META) {
      LiveBlock(p, from + META + bs[0].size, bs[1..], off);
    }
  }

  function PageIndex(ps: seq<Page>, key: Key): (i: int)
    ensures -1 <= i < |ps|
    ensures i >= 0 ==> ps[i].key == key
    ensures i < 0 ==> forall j :: 0 <= j < |ps| ==> ps[j].key != key
  {
    if ps == [] then -1
    else if ps[0].key == key then 0
    else
      var i := PageIndex(ps[1..], key);
      if i < 0 then -1 else i + 1
  }

  /** A pointer the process may free: the payload of one of its live blocks. */
  ghost predicate Owned(cfg: Config, s: State, key: Key, off: int)
    requires PagesInv(cfg.pageSize, s.pages)
  {
    off in Contents(cfg.pageSize, s.pages, key)
  }

  lemma OwnedBlock(cfg: Config, s: State, key: Key, off: int)
    requires PagesInv(cfg.pageSize, s.pages) && Owned(cfg, s, key, off)
    ensures PageIndex(s.pages, key) >= 0
    ensures var g := s.pages[PageIndex(s.pages, key)];
      && PageInv(cfg.pageSize, g)
      && Contents(cfg.pageSize, s.pages, key) == Payloads(g)
      && BlockAt(g.blocks, off) >= 0 && g.blocks[BlockAt(g.blocks, off)].used
      && HeaderAt(g, BlockAt(g.blocks, off)) + META == off
      && |Payloads(g)[off]| == g.blocks[BlockAt(g.blocks, off)].size
  {
    var g :| g in s.pages && g.key == key;
    var i := PageIndex(s.pages, key);
    ContentsOf(cfg.pageSize, s.pages, s.pages[i]);
    LiveBlock(s.pages[i].bytes, 0, s.pages[i].blocks, off);
  }

  function Release(cfg: Config, s: State, key: Key, off: int): State
    requires PagesInv(cfg.pageSize, s.pages) && key.pid in s.procs
    requires Owned(cfg, s, key, off)
  {
    OwnedBlock(cfg, s, key, off);
    var i := PageIndex(s.pages, key);
    var k := BlockAt(s.pages[i].blocks, off);
    HeaderFits(cfg.pageSize, s.pages[i], k);
    s.(pages := s.pages[i := FreePage(s.pages[i], k)],
       procs := s.procs[key.pid := ChargeFree(s.procs[key.pid], s.pages[i].blocks[k].size)])
  }

  function Store(cfg: Config, s: State, key: Key, at: nat, d: seq<Byte>): State
    requires PageIndex(s.pages, key) >= 0
    requires at + |d| <= |s.pages[PageIndex(s.pages, key)].bytes|
  {
    var i := PageIndex(s.pages, key);
    s.(pages := s.pages[i := s.pages[i].(bytes := Paste(s.pages[i].bytes, at, d))])
  }

  function Finish(s: State, pid: int): State {
    State(DropSkipping(s.pages, (g: Page) => g.key.pid == pid), s.procs - {pid}, s.started, s.granted - {pid})
  }

  function Start(cfg: Config, s: State, pid: int, codePages: nat): State {
    State(s.pages, s.procs[pid := Process(codePages, Account(0, 0, 0, 0, 0, 0), 0, 0)],
          s.started + {pid}, s.granted[pid := codePages + cfg.stackPages])
  }

  // ----- the machine -----

  datatype Event =
    | EvStart(pid: int, codePages: nat)
    | EvAllocate(pid: int, size: int, grant: Grant)
    | EvRelease(pid: int, page: int, offset: int)
    | EvStore(pid: int, page: int, offset: int, at: nat, d: seq<Byte>)
    | EvFinish(pid: int)

  /** What the callers of each request must respect. */
  ghost predicate Enabled(cfg: Config, s: State, e: Event)
    requires PagesInv(cfg.pageSize, s.pages)
  {
    match e
    case EvStart(pid, _) => pid !in s.started
    case EvAllocate(pid, size, grant) =>
      pid in s.procs && IsInt(size) && (grant.Frame? ==> |grant.stale| == cfg.pageSize)
    case EvRelease(pid, page, off) =>
      pid in s.procs && Owned(cfg, s, Key(pid, page), off)
    case EvStore(pid, page, off, at, d) =>
      && pid in s.procs && Owned(cfg, s, Key(pid, page), off)
      && off <= at && at + |d| <= off + |Contents(cfg.pageSize, s.pages, Key(pid, page))[off]|
    case EvFinish(pid) => pid in s.procs
  }

  /** The bookkeeping of one process: Kernel and Memory agree on how many pages it has,
      its heap pages are numbered after its code and stack, and its account matches what
      is live once the refused requests are discounted. */
  ghost predicate Linked(cfg: Config, s: State, pid: int)
    requires pid in s.procs
  {
    var p := s.procs[pid];
    && pid in s.granted && s.granted[pid] == NextPage(cfg, p)
    && (forall j :: 0 <= j < |s.pages| && s.pages[j].key.pid == pid ==>
          p.codePages + cfg.stackPages <= s.pages[j].key.page < NextPage(cfg, p))
    && TallyOf(s.pages, pid) == Tally(p.account.heapPages,
                                      p.account.allocs - p.account.frees - p.refused,
                                      p.account.allocBytes - p.account.freeBytes - p.refusedBytes)
    && (p.refused == 0 ==> p.refusedBytes == 0)
  }

  ghost predicate Inv(cfg: Config, s: State) {
    && ConfigOk(cfg)
    && PagesInv(cfg.pageSize, s.pages)
    && s.procs.Keys <= s.started
    && (forall j :: 0 <= j < |s.pages| ==> s.pages[j].key.pid in s.started)
    && (forall pid :: pid in s.procs ==> Linked(cfg, s, pid))
  }

  const EMPTY := State([], map[], {}, map[])

  lemma EmptyInv(cfg: Config)
    requires ConfigOk(cfg)
    ensures Inv(cfg, EMPTY)
  {
  }

  function Step(cfg: Config, s: State, e: Event): State
    requires Inv(cfg, s) && Enabled(cfg, s, e)
  {
    match e
    case EvStart(pid, codePages) => Start(cfg, s, pid, codePages)
    case EvAllocate(pid, size, grant) => Allocate(cfg, s, pid, size, grant).0
    case EvRelease(pid, page, off) => Release(cfg, s, Key(pid, page), off)
    case EvStore(pid, page, off, at, d) =>
      OwnedBlock(cfg, s, Key(pid, page), off);
      HeaderFits(cfg.pageSize, s.pages[PageIndex(s.pages, Key(pid, page))],
                 BlockAt(s.pages[PageIndex(s.pages, Key(pid, page))].blocks, off));
      Store(cfg, s, Key(pid, page), at, d)
    case EvFinish(pid) => Finish(s, pid)
  }
}
