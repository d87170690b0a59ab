/** What every run of requests keeps in the memory server, and why its cache cannot be
    told from memory. */
module MemoryTheorems {
  import opened Bytes
  import opened MemoryTable
  import opened MemorySpec

  // ----- frames -----

  function InitTable(g: Geometry): (t: seq<Entry>)
    requires g.frameSize > 0
  {
    seq(g.frames, i requires 0 <= i < g.frames =>
      if i < TableFrames(g) then Entry(i, TABLE_OWNER, i) else Entry(i, NOBODY, NOBODY))
  }

  lemma InitTableInv(g: Geometry)
    requires GeometryOk(g)
    ensures TableInv(g, InitTable(g))
    ensures forall pid :: pid >= 1 ==> Count(InitTable(g), pid) == 0
  {
    var t := InitTable(g);
    forall pid | pid >= 1
      ensures Count(t, pid) == 0
    {
      CountNone(t, pid);
    }
  }

  /** n frames more: the process's pages go on from where they were, and every page that
      was mapped stays in its frame. */
  lemma {:induction false} AssignManyInv(g: Geometry, t: seq<Entry>, pid: int, n: int)
    requires TableInv(g, t) && pid >= 1 && IsInt(pid) && Count(t, NOBODY) >= n
    ensures var r := AssignMany(t, pid, n);
      && TableInv(g, r)
      && Count(r, pid) == Count(t, pid) + (if n < 0 then 0 else n)
      && Count(r, NOBODY) == Count(t, NOBODY) - (if n < 0 then 0 else n)
      && (forall q :: q != pid && q != NOBODY ==> Count(r, q) == Count(t, q))
      && (forall q, k :: q >= 1 && FrameOf(t, q, k) >= 0 ==> FrameOf(r, q, k) == FrameOf(t, q, k))
    decreases if n < 0 then 0 else n
  {
    hide TableInv, Count, FrameOf, FirstFree, AssignOne;
    if n > 0 {
      CountNone(t, NOBODY);
      AssignOneInv(g, t, pid);
      var u := AssignOne(t, pid);
      forall q
        ensures Count(u, q) == Count(t, q) + (if q == pid then 1 else 0) - (if q == NOBODY then 1 else 0)
      {
        AssignCounts(t, pid, q);
      }
      forall q, k | q >= 1 && FrameOf(t, q, k) >= 0
        ensures FrameOf(u, q, k) == FrameOf(t, q, k)
      {
        AssignKeepsFrame(t, pid, q, k);
      }
      AssignManyInv(g, u, pid, n - 1);
    }
  }

  /** Pages of a process are exactly 0 .. n-1. */
  lemma PagesAreAPrefix(g: Geometry, c: Core, pid: int, page: int)
    requires CoreInv(g, c) && pid >= 1
    ensures Mapped(c, pid, page) <==> 0 <= page < Count(c.table, pid)
  {
    FrameAfterTable(g, c.table, pid, page);
  }

  /** Two different pages lie in two different frames. */
  lemma FramesDiffer(g: Geometry, c: Core, p: int, j: int, q: int, k: int)
    requires CoreInv(g, c) && Mapped(c, p, j) && Mapped(c, q, k) && (p, j) != (q, k)
    ensures FrameOf(c.table, p, j) != FrameOf(c.table, q, k)
  {
  }

  /** A write changes the bytes named, in the page named, and nothing else: not the rest
      of the page, not another page, not the table. */
  lemma CoreWriteCorrect(g: Geometry, c: Core, pid: int, page: int, off: nat, d: seq<Byte>)
    requires CoreInv(g, c) && pid >= 1 && off + |d| <= g.frameSize
    ensures var (e, f) := CoreWrite(g, c, pid, page, off, d);
      && CoreInv(g, e)
      && e.table == c.table
      && (f >= 0 <==> Mapped(c, pid, page)) && (f < 0 ==> f == -1 && e == c)
      && (Mapped(c, pid, page) ==> PageBytes(g, e, pid, page) == Paste(PageBytes(g, c, pid, page), off, d))
      && (forall q, k :: q >= 1 && Mapped(c, q, k) && (q, k) != (pid, page) ==>
            PageBytes(g, e, q, k) == PageBytes(g, c, q, k))
  {
    hide Count, FrameOf;
    var (e, f) := CoreWrite(g, c, pid, page, off, d);
    if f >= 0 {
      FrameAfterTable(g, c.table, pid, page);
      assert CoreInv(g, e);
      forall q, k | q >= 1 && Mapped(c, q, k) && (q, k) != (pid, page)
        ensures PageBytes(g, e, q, k) == PageBytes(g, c, q, k)
      {
        FramesDiffer(g, c, pid, page, q, k);
        FrameAfterTable(g, c.table, q, k);
      }
    }
  }

  lemma CoreAssignCorrect(g: Geometry, c: Core, pid: int, n: int)
    requires CoreInv(g, c) && pid >= 1 && IsInt(pid)
    ensures var (e, res) := CoreAssign(c, pid, n);
      && CoreInv(g, e)
      && (res == 0 || res == -1) && (res == 0 <==> Count(c.table, NOBODY) >= n)
      && (res < 0 ==> e == c)
      && (res == 0 ==> Count(e.table, pid) == Count(c.table, pid) + (if n < 0 then 0 else n))
      && (forall q :: q != pid && q != NOBODY ==> Count(e.table, q) == Count(c.table, q))
      && (forall q, k :: q >= 1 && Mapped(c, q, k) ==>
            Mapped(e, q, k) && PageBytes(g, e, q, k) == PageBytes(g, c, q, k))
  {
    hide TableInv, Count, FrameOf, AssignMany;
    if Count(c.table, NOBODY) >= n {
      AssignManyInv(g, c.table, pid, n);
    }
  }

  lemma CoreFinishCorrect(g: Geometry, c: Core, pid: int)
    requires CoreInv(g, c) && pid >= 1
    ensures var e := CoreFinish(c, pid);
      && CoreInv(g, e)
      && Count(e.table, pid) == 0
      && (forall k :: !Mapped(e, pid, k))
      && (forall q :: q != pid && q != NOBODY ==> Count(e.table, q) == Count(c.table, q))
      && (forall q, k :: q >= 1 && q != pid ==> Mapped(e, q, k) == Mapped(c, q, k))
      && (forall q, k :: q >= 1 && q != pid && Mapped(c, q, k) ==> PageBytes(g, e, q, k) == PageBytes(g, c, q, k))
  {
    hide TableInv, Count, FrameOf, Wipe;
    WipeInv(g, c.table, pid);
  }

  // ----- cache -----

  lemma {:induction false} SlotCountUpdate(cache: seq<Slot>, i: nat, e: Slot, pid: int)
    requires i < |cache|
    ensures SlotCount(cache[i := e], pid) + (if cache[i].pid == pid then 1 else 0)
         == SlotCount(cache, pid) + (if e.pid == pid then 1 else 0)
  {
    if i == 0 {
      assert cache[i := e][1..] == cache[1..];
    } else {
      SlotCountUpdate(cache[1..], i - 1, e, pid);
      assert cache[i := e][1..] == cache[1..][i - 1 := e];
    }
  }

  lemma {:induction false} SlotCountSame(cache: seq<Slot>, r: seq<Slot>, pid: int)
    requires |cache| == |r| && forall i :: 0 <= i < |r| ==> (r[i].pid == pid <==> cache[i].pid == pid)
    ensures SlotCount(cache, pid) == SlotCount(r, pid)
  {
    if r != [] {
      SlotCountSame(cache[1..], r[1..], pid);
    }
  }

  lemma {:induction false} SlotCountNone(cache: seq<Slot>, pid: int)
    requires forall i :: 0 <= i < |cache| ==> cache[i].pid != pid
    ensures SlotCount(cache, pid) == 0
  {
    if cache != [] {
      SlotCountNone(cache[1..], pid);
    }
  }

  lemma LastTouchAppend(touched: seq<nat>, i: nat, j: nat)
    ensures LastTouch(touched + [i], j) == if i == j then |touched| + 1 else LastTouch(touched, j)
  {
    assert (touched + [i])[..|touched|] == touched;
  }

  /** Filling slot i with a true entry that no other slot holds keeps the cache sound. */
  lemma TouchInv(st: Settings, s: State, i: nat, e: Slot)
    requires CoreInv(st.geo, s.core) && CacheInv(st, s) && i < |s.cache|
    requires SlotTrue(st.geo, s.core, e) && |e.content| == st.geo.frameSize
    requires forall j :: 0 <= j < |s.cache| && j != i && s.cache[j].pid == e.pid ==> s.cache[j].page != e.page
    requires s.cache[i].pid == e.pid || SlotCount(s.cache, e.pid) < st.perProcess
    ensures Inv(st, Touch(s, i, e))
  {
    hide CoreInv, SlotTrue, SlotCount, LastTouch;
    var t := Touch(s, i, e);
    assert e.pid >= 1 by { SlotTruePid(st.geo, s.core, e); }
    forall pid | pid >= 1
      ensures SlotCount(t.cache, pid) <= st.perProcess || SlotCount(t.cache, pid) == 0
    {
      SlotCountUpdate(s.cache, i, e, pid);
    }
    forall j | 0 <= j < |t.uses|
      ensures if t.uses[j] == NEVER then t.cache[j].pid == NOBODY
              else t.uses[j] == LastTouch(t.touched, j) > 0
    {
      LastTouchAppend(s.touched, i, j);
    }
  }

  lemma SlotTruePid(g: Geometry, c: Core, e: Slot)
    requires CoreInv(g, c) && SlotTrue(g, c, e)
    ensures e.pid >= 1
  {
  }

  /** The cache stays sound when memory changes without disturbing any cached page. */
  lemma CacheFollows(st: Settings, s: State, c: Core)
    requires CoreInv(st.geo, s.core) && CacheInv(st, s) && CoreInv(st.geo, c)
    requires forall i :: 0 <= i < |s.cache| && s.cache[i].pid >= 1 ==> SlotTrue(st.geo, c, s.cache[i])
    ensures CacheInv(st, s.(core := c))
  {
    hide CoreInv, SlotCount, LastTouch;
  }

  // ----- the requests, with and without the cache -----

  datatype Request =
    | RqAssign(pid: int, n: int)
    | RqRead(pid: int, page: int, off: nat, size: nat)
    | RqWrite(pid: int, page: int, off: nat, d: seq<Byte>)
    | RqFinish(pid: int)
    | RqFlush

  datatype Reply = Done | Code(code: int) | Data(found: bool, bytes: seq<Byte>)

  /** Accesses name a process and stay inside one page. */
  ghost predicate Shaped(st: Settings, rq: Request) {
    match rq
    case RqAssign(pid, _) => pid >= 1 && IsInt(pid)
    case RqRead(pid, _, off, size) => pid >= 1 && off + size <= st.geo.frameSize
    case RqWrite(pid, _, off, d) => pid >= 1 && off + |d| <= st.geo.frameSize
    case RqFinish(pid) => pid >= 1
    case RqFlush => true
  }

  /** What the kernel and the CPUs respect when they call. A page that does not exist may
      be read only when the cache has no room to give the process: otherwise the server
      would cache a frame that is not there. */
  ghost predicate Ready(st: Settings, s: State, rq: Request) {
    && Shaped(st, rq)
    && (rq.RqRead? ==> Mapped(s.core, rq.pid, rq.page) || SlotCount(s.cache, rq.pid) >= st.perProcess)
  }

  function Step(st: Settings, s: State, rq: Request): (State, Reply)
    requires Inv(st, s) && Ready(st, s, rq)
  {
    match rq
    case RqAssign(pid, n) => var (t, c) := Assign(s, pid, n); (t, Code(c))
    case RqRead(pid, page, off, size) => var (t, c, b) := Read(st, s, pid, page, off, size); (t, Data(c >= 0, b))
    case RqWrite(pid, page, off, d) => var (t, c) := Write(st, s, pid, page, off, d); (t, Code(c))
    case RqFinish(pid) => (Finish(s, pid), Done)
    case RqFlush => (Flush(s), Done)
  }

  /** The same request served from memory alone, with a linear scan of the table. */
  function PlainStep(st: Settings, c: Core, rq: Request): (Core, Reply)
    requires CoreInv(st.geo, c) && Shaped(st, rq)
  {
    match rq
    case RqAssign(pid, n) => var (e, res) := CoreAssign(c, pid, n); (e, Code(res))
    case RqRead(pid, page, off, size) =>
      (c, if Mapped(c, pid, page) then Data(true, PageBytes(st.geo, c, pid, page)[off..off + size]) else Data(false, []))
    case RqWrite(pid, page, off, d) => var (e, f) := CoreWrite(st.geo, c, pid, page, off, d); (e, Code(f))
    case RqFinish(pid) => (CoreFinish(c, pid), Done)
    case RqFlush => (c, Done)
  }

  lemma ReadStep(st: Settings, s: State, pid: int, page: int, off: nat, size: nat)
    requires Inv(st, s) && Ready(st, s, RqRead(pid, page, off, size))
    ensures var (t, c, b) := Read(st, s, pid, page, off, size);
      && Inv(st, t) && t.core == s.core
      && (c >= 0 <==> Mapped(s.core, pid, page))
      && b == if Mapped(s.core, pid, page) then PageBytes(st.geo, s.core, pid, page)[off..off + size] else []
  {
    hide CoreInv, SlotCount, LastTouch, FrameOf, PageBytes;
    var i := SlotOf(s.cache, pid, page);
    if i >= 0 {
      assert SlotTrue(st.geo, s.core, s.cache[i]);
      TouchInv(st, s, i, s.cache[i]);
    } else if SlotCount(s.cache, pid) < st.perProcess {
      TouchInv(st, s, Victim(s.uses), Slot(pid, page, PageBytes(st.geo, s.core, pid, page)));
    }
  }

  lemma WriteStep(st: Settings, s: State, pid: int, page: int, off: nat, d: seq<Byte>)
    requires Inv(st, s) && Ready(st, s, RqWrite(pid, page, off, d))
    ensures var (t, c) := Write(st, s, pid, page, off, d);
      && Inv(st, t)
      && (t.core, c) == CoreWrite(st.geo, s.core, pid, page, off, d)
  {
    hide CoreInv, SlotCount, LastTouch, FrameOf, CoreWrite, PageBytes, Mapped;
    CoreWriteCorrect(st.geo, s.core, pid, page, off, d);
    var (c, f) := CoreWrite(st.geo, s.core, pid, page, off, d);
    var i := SlotOf(s.cache, pid, page);
    forall j | 0 <= j < |s.cache| && j != i && s.cache[j].pid >= 1
      ensures SlotTrue(st.geo, c, s.cache[j])
    {
      assert SlotTrue(st.geo, s.core, s.cache[j]);
      OtherSlotTrue(st.geo, s.core, pid, page, off, d, s.cache[j]);
    }
    if i < 0 {
      CacheFollows(st, s, c);
    } else {
      assert SlotTrue(st.geo, s.core, s.cache[i]);
      WrittenPage(st.geo, s.core, pid, page, off, d);
      RefreshedInv(st, s, i, Slot(pid, page, PageBytes(st.geo, c, pid, page)), c);
    }
  }

  lemma OtherSlotTrue(g: Geometry, c: Core, pid: int, page: int, off: nat, d: seq<Byte>, e: Slot)
    requires CoreInv(g, c) && pid >= 1 && off + |d| <= g.frameSize
    requires SlotTrue(g, c, e) && (e.pid, e.page) != (pid, page)
    ensures CoreInv(g, CoreWrite(g, c, pid, page, off, d).0)
    ensures SlotTrue(g, CoreWrite(g, c, pid, page, off, d).0, e)
  {
    hide CoreInv, PageBytes, FrameOf, CoreWrite;
    CoreWriteCorrect(g, c, pid, page, off, d);
  }

  lemma WrittenPage(g: Geometry, c: Core, pid: int, page: int, off: nat, d: seq<Byte>)
    requires CoreInv(g, c) && pid >= 1 && off + |d| <= g.frameSize && Mapped(c, pid, page)
    ensures var (e, f) := CoreWrite(g, c, pid, page, off, d);
      && CoreInv(g, e) && Mapped(e, pid, page)
      && TableFrames(g) <= f < TableFrames(g) + |e.data|
      && e.data[f - TableFrames(g)] == PageBytes(g, e, pid, page)
  {
    hide Count, FrameOf;
    CoreWriteCorrect(g, c, pid, page, off, d);
    FrameAfterTable(g, c.table, pid, page);
  }

  /** Slot i is brought up to date with memory c; the other slots already agree with it. */
  lemma RefreshedInv(st: Settings, s: State, i: nat, e: Slot, c: Core)
    requires CoreInv(st.geo, s.core) && CacheInv(st, s) && CoreInv(st.geo, c) && i < |s.cache|
    requires SlotTrue(st.geo, c, e) && |e.content| == st.geo.frameSize
    requires s.cache[i].pid == e.pid && s.cache[i].page == e.page
    requires forall j :: 0 <= j < |s.cache| && j != i && s.cache[j].pid >= 1 ==> SlotTrue(st.geo, c, s.cache[j])
    ensures Inv(st, Touch(s.(core := c), i, e))
  {
    hide CoreInv, SlotCount, LastTouch;
    SlotTruePid(st.geo, c, e);
    var u := s.(core := c, cache := s.cache[i := e]);
    forall pid | pid >= 1
      ensures SlotCount(u.cache, pid) == SlotCount(s.cache, pid)
    {
      SlotCountUpdate(s.cache, i, e, pid);
    }
    assert CacheInv(st, u);
    TouchInv(st, u, i, e);
    assert Touch(u, i, e) == Touch(s.(core := c), i, e);
  }

  lemma AssignStep(st: Settings, s: State, pid: int, n: int)
    requires Inv(st, s) && pid >= 1 && IsInt(pid)
    ensures Inv(st, Assign(s, pid, n).0)
  {
    hide SlotCount, LastTouch, TableInv, CoreAssign;
    CoreAssignCorrect(st.geo, s.core, pid, n);
    CacheFollows(st, s, CoreAssign(s.core, pid, n).0);
  }

  lemma FinishStep(st: Settings, s: State, pid: int)
    requires Inv(st, s) && pid >= 1
    ensures Inv(st, Finish(s, pid))
  {
    hide SlotCount, LastTouch, TableInv, CoreFinish, PageBytes;
    CoreFinishCorrect(st.geo, s.core, pid);
    var t := Finish(s, pid);
    forall q | q >= 1
      ensures SlotCount(t.cache, q) <= st.perProcess || SlotCount(t.cache, q) == 0
    {
      if q == pid {
        SlotCountNone(t.cache, q);
      } else {
        SlotCountSame(s.cache, t.cache, q);
      }
    }
  }

  lemma FlushStep(st: Settings, s: State)
    requires Inv(st, s)
    ensures Inv(st, Flush(s))
  {
    hide LastTouch, TableInv;
    var t := Flush(s);
    forall q | q >= 1
      ensures SlotCount(t.cache, q) == 0
    {
      SlotCountNone(t.cache, q);
    }
  }

  /** One request: the cache stays sound, memory ends as it would without a cache, and so
      does the answer. */
  lemma StepTransparent(st: Settings, s: State, rq: Request)
    requires Inv(st, s) && Ready(st, s, rq)
    ensures Inv(st, Step(st, s, rq).0)
    ensures (Step(st, s, rq).0.core, Step(st, s, rq).1) == PlainStep(st, s.core, rq)
  {
    hide CoreInv, CacheInv;
    match rq
    case RqAssign(pid, n) => AssignStep(st, s, pid, n);
    case RqRead(pid, page, off, size) => ReadStep(st, s, pid, page, off, size);
    case RqWrite(pid, page, off, d) => WriteStep(st, s, pid, page, off, d);
    case RqFinish(pid) => FinishStep(st, s, pid);
    case RqFlush => FlushStep(st, s);
  }

  // ----- runs -----

  ghost predicate Legal(st: Settings, s: State, rqs: seq<Request>)
    requires Inv(st, s)
    decreases rqs
  {
    rqs == [] || (Ready(st, s, rqs[0]) && (StepTransparent(st, s, rqs[0]); Legal(st, Step(st, s, rqs[0]).0, rqs[1..])))
  }

  ghost function Run(st: Settings, s: State, rqs: seq<Request>): (r: (State, seq<Reply>))
    requires Inv(st, s) && Legal(st, s, rqs)
    ensures Inv(st, r.0)
    decreases rqs
  {
    if rqs == [] then (s, [])
    else
      StepTransparent(st, s, rqs[0]);
      var (t, a) := Step(st, s, rqs[0]);
      var (u, as') := Run(st, t, rqs[1..]);
      (u, [a] + as')
  }

  lemma PlainStepInv(st: Settings, c: Core, rq: Request)
    requires CoreInv(st.geo, c) && Shaped(st, rq)
    ensures CoreInv(st.geo, PlainStep(st, c, rq).0)
  {
    hide CoreInv;
    match rq
    case RqAssign(pid, n) => CoreAssignCorrect(st.geo, c, pid, n);
    case RqWrite(pid, page, off, d) => CoreWriteCorrect(st.geo, c, pid, page, off, d);
    case RqFinish(pid) => CoreFinishCorrect(st.geo, c, pid);
    case _ =>
  }

  ghost function PlainRun(st: Settings, c: Core, rqs: seq<Request>): (r: (Core, seq<Reply>))
    requires CoreInv(st.geo, c) && forall i :: 0 <= i < |rqs| ==> Shaped(st, rqs[i])
    decreases rqs
  {
    if rqs == [] then (c, [])
    else
      PlainStepInv(st, c, rqs[0]);
      var (e, a) := PlainStep(st, c, rqs[0]);
      var (u, as') := PlainRun(st, e, rqs[1..]);
      (u, [a] + as')
  }

  lemma {:induction false} LegalShaped(st: Settings, s: State, rqs: seq<Request>)
    requires Inv(st, s) && Legal(st, s, rqs)
    ensures forall i :: 0 <= i < |rqs| ==> Shaped(st, rqs[i])
    decreases rqs
  {
    if rqs != [] {
      StepTransparent(st, s, rqs[0]);
      LegalShaped(st, Step(st, s, rqs[0]).0, rqs[1..]);
    }
  }

  /** Cache transparency over every run: the answers, read for read, and the memory left
      behind are those of a server with no cache that scans its table from the start. */
  lemma {:induction false} RunTransparent(st: Settings, s: State, rqs: seq<Request>)
    requires Inv(st, s) && Legal(st, s, rqs)
    ensures forall i :: 0 <= i < |rqs| ==> Shaped(st, rqs[i])
    ensures (Run(st, s, rqs).0.core, Run(st, s, rqs).1) == PlainRun(st, s.core, rqs)
    decreases rqs
  {
    hide CoreInv, CacheInv, Shaped, PlainStep;
    LegalShaped(st, s, rqs);
    if rqs != [] {
      StepTransparent(st, s, rqs[0]);
      RunTransparent(st, Step(st, s, rqs[0]).0, rqs[1..]);
    }
  }

  /** The server as it starts. */
  ghost predicate Fresh(st: Settings, s: State) {
    && GeometryOk(st.geo) && (st.perProcess > 0 ==> st.slots > 0)
    && s.core.table == InitTable(st.geo)
    && |s.core.data| == st.geo.frames - TableFrames(st.geo)
    && (forall j :: 0 <= j < |s.core.data| ==> |s.core.data[j]| == st.geo.frameSize)
    && |s.cache| == |s.uses| == st.slots
    && (forall i :: 0 <= i < |s.cache| ==>
          s.cache[i].pid == s.cache[i].page == NOBODY && |s.cache[i].content| == st.geo.frameSize)
    && (forall i :: 0 <= i < |s.uses| ==> s.uses[i] == NEVER)
    && s.touched == []
  }

  lemma FreshInv(st: Settings, s: State)
    requires Fresh(st, s)
    ensures Inv(st, s)
  {
    InitTableInv(st.geo);
    forall pid | pid >= 1
      ensures SlotCount(s.cache, pid) == 0
    {
      SlotCountNone(s.cache, pid);
    }
  }

  /** Over every run from the start: an occupied slot is a mapped page equal to its frame,
      no page is cached twice, no process holds more than its quota of slots, and the
      pages of each process are 0 .. n-1 in n different frames beyond the table. */
  lemma ReachableSound(st: Settings, s: State, rqs: seq<Request>)
    requires Fresh(st, s) && (FreshInv(st, s); Legal(st, s, rqs))
    ensures Inv(st, s)
    ensures var t := Run(st, s, rqs).0;
      && (forall i :: 0 <= i < |t.cache| && t.cache[i].pid != NOBODY ==>
            && t.cache[i].pid >= 1 && Mapped(t.core, t.cache[i].pid, t.cache[i].page)
            && t.cache[i].content == PageBytes(st.geo, t.core, t.cache[i].pid, t.cache[i].page))
      && (forall i, j :: 0 <= i < j < |t.cache| && t.cache[i].pid >= 1 ==>
            (t.cache[i].pid, t.cache[i].page) != (t.cache[j].pid, t.cache[j].page))
      && (forall pid :: pid >= 1 ==> SlotCount(t.cache, pid) <= if st.perProcess > 0 then st.perProcess else 0)
      && (forall pid, page :: pid >= 1 ==> (Mapped(t.core, pid, page) <==> 0 <= page < Count(t.core.table, pid)))
      && (forall pid, page :: pid >= 1 && Mapped(t.core, pid, page) ==>
            FrameOf(t.core.table, pid, page) >= TableFrames(st.geo))
  {
    hide TableInv, SlotCount, FrameOf, Count;
    FreshInv(st, s);
    var t := Run(st, s, rqs).0;
    forall i | 0 <= i < |t.cache| && t.cache[i].pid != NOBODY
      ensures SlotTrue(st.geo, t.core, t.cache[i])
    {
    }
    forall pid, page | pid >= 1
      ensures Mapped(t.core, pid, page) <==> 0 <= page < Count(t.core.table, pid)
      ensures Mapped(t.core, pid, page) ==> FrameOf(t.core.table, pid, page) >= TableFrames(st.geo)
    {
      FrameAfterTable(st.geo, t.core.table, pid, page);
    }
  }

  /** Least recently used: the slot chosen was never used, if there is such a slot; if not,
      its last insertion, hit or write-through is strictly the oldest of all. */
  lemma VictimIsOldest(st: Settings, s: State, i: nat)
    requires Inv(st, s) && s.uses != [] && i < |s.uses| && i != Victim(s.uses)
    ensures var v := Victim(s.uses);
      if exists k :: 0 <= k < |s.uses| && s.uses[k] == NEVER then s.uses[v] == NEVER
      else 0 < LastTouch(s.touched, v) < LastTouch(s.touched, i)
  {
    hide CoreInv;
  }

  /** Use stamps are pairwise different and below the counter. */
  lemma StampsDiffer(st: Settings, s: State, i: nat, j: nat)
    requires Inv(st, s) && i < j < |s.uses| && s.uses[i] != NEVER && s.uses[j] != NEVER
    ensures s.uses[i] != s.uses[j]
    ensures 1 <= s.uses[i] < |s.touched| + 1
  {
    hide CoreInv;
  }

  /** A read after a write sees it, whatever the cache did in between. */
  lemma ReadAfterWrite(st: Settings, s: State, pid: int, page: int, off: nat, d: seq<Byte>)
    requires Inv(st, s) && pid >= 1 && off + |d| <= st.geo.frameSize && Mapped(s.core, pid, page)
    ensures Inv(st, Write(st, s, pid, page, off, d).0)
    ensures Mapped(Write(st, s, pid, page, off, d).0.core, pid, page)
    ensures Read(st, Write(st, s, pid, page, off, d).0, pid, page, off, |d|).2 == d
  {
    hide CoreInv, CacheInv, PageBytes, FrameOf;
    WriteStep(st, s, pid, page, off, d);
    CoreWriteCorrect(st.geo, s.core, pid, page, off, d);
    var t := Write(st, s, pid, page, off, d).0;
    ReadStep(st, t, pid, page, off, |d|);
    PasteHere(PageBytes(st.geo, s.core, pid, page), off, d);
  }

  // ----- from bytes to state -----

  /** The state that the bytes of memory hold. */
  ghost function CoreOf(g: Geometry, m: seq<Byte>): (c: Core)
    requires GeometryOk(g) && |m| == g.frames * g.frameSize
    ensures |c.table| == g.frames
    ensures |c.data| == g.frames - TableFrames(g)
    ensures forall j :: 0 <= j < |c.data| ==> |c.data[j]| == g.frameSize
  {
    DataSizes(g, m);
    Core(TableOf(g, m), DataOf(g, m))
  }

  /** memcpy at frame * marco_size + offset does to the bytes what CoreWrite says. */
  lemma StoreBytesInPlace(g: Geometry, m: seq<Byte>, c: Core, pid: int, page: int, f: nat, at: nat,
                          off: nat, d: seq<Byte>)
    requires GeometryOk(g) && |m| == g.frames * g.frameSize && c == CoreOf(g, m)
    requires CoreInv(g, c) && pid >= 1 && off + |d| <= g.frameSize
    requires f == FrameOf(c.table, pid, page) && at == f * g.frameSize + off
    ensures f >= TableFrames(g)
    ensures at + |d| <= |m|
    ensures CoreOf(g, Paste(m, at, d)) == CoreWrite(g, c, pid, page, off, d).0
  {
    hide FrameOf, Count, TableFrames, Paste, TableOf;
    FrameAfterTable(g, c.table, pid, page);
    WriteData(g, m, f, off, d);
    assert PageBytes(g, c, pid, page) == FrameAt(g, m, f);
  }

  /** The table when the wiping loop has done its first i entries. */
  function Wiped(t: seq<Entry>, pid: int, i: nat): (r: seq<Entry>)
    ensures |r| == |t|
  {
    if i <= |t| then Wipe(t, pid)[..i] + t[i..] else t
  }

  lemma WipeBegin(g: Geometry, t: seq<Entry>, pid: int)
    requires TableInv(g, t) && pid >= 1
    ensures TableFrames(g) <= g.frames == |t| && Wiped(t, pid, TableFrames(g)) == t
  {
    hide Count, FrameOf, TableFrames;
    forall k | 0 <= k < TableFrames(g)
      ensures Wipe(t, pid)[k] == t[k]
    {
      assert t[k].pid == TABLE_OWNER;
    }
    assert Wipe(t, pid)[..TableFrames(g)] == t[..TableFrames(g)];
  }

  lemma WipeTurn(g: Geometry, t: seq<Entry>, pid: int, i: nat)
    requires TableInv(g, t) && i < |t|
    ensures Wiped(t, pid, i)[i] == t[i] && IsInt(t[i].frame)
    ensures if t[i].pid == pid then Wiped(t, pid, i)[i := Entry(t[i].frame, NOBODY, NOBODY)] == Wiped(t, pid, i + 1)
            else Wiped(t, pid, i) == Wiped(t, pid, i + 1)
  {
    var w := Wipe(t, pid);
    assert w[i] == if t[i].pid == pid then Entry(t[i].frame, NOBODY, NOBODY) else t[i];
    hide Wipe;
    FrameIsInt(g, t, i);
    hide TableInv;
    Graft(w, t, i);
  }

  lemma FrameIsInt(g: Geometry, t: seq<Entry>, i: nat)
    requires TableInv(g, t) && i < |t|
    ensures IsInt(t[i].frame)
  {
  }

  lemma Graft(w: seq<Entry>, t: seq<Entry>, i: nat)
    requires i < |w| == |t|
    ensures (w[..i] + t[i..])[i] == t[i]
    ensures (w[..i] + t[i..])[i := w[i]] == w[..i + 1] + t[i + 1..]
  {
  }

  lemma WipeOver(t: seq<Entry>, pid: int)
    ensures Wiped(t, pid, |t|) == Wipe(t, pid)
  {
  }

  // ----- reads that run past their page -----

  lemma SlotInts(st: Settings, s: State, i: nat)
    requires Inv(st, s) && i < |s.cache|
    ensures IsInt(s.cache[i].pid) && IsInt(s.cache[i].page)
  {
    hide Count, SlotCount, LastTouch, PageBytes;
  }

  /** What memcpy finds from the start of a page on: in the cache when the page is there, in
      memory when it is not. */
  ghost function Source(st: Settings, s: State, pid: int, page: int): (b: seq<Byte>)
    requires Inv(st, s) && pid >= 1 && Mapped(s.core, pid, page)
    ensures PageBytes(st.geo, s.core, pid, page) <= b
  {
    hide Count, SlotCount, LastTouch;
    FrameAfterTable(st.geo, s.core.table, pid, page);
    var i := SlotOf(s.cache, pid, page);
    if i >= 0 then
      if i + 1 < |s.cache| then (SlotInts(st, s, i + 1); SlotRun(s.cache, i)) else SlotRun(s.cache, i)
    else FrameRun(s.core.data, FrameOf(s.core.table, pid, page) - TableFrames(st.geo))
  }

  /** The read ends within its page, or within what is modelled of the bytes behind it. */
  ghost predicate Reaches(st: Settings, s: State, pid: int, page: int, off: nat, size: nat)
    requires Inv(st, s) && pid >= 1
  {
    off + size <= st.geo.frameSize || (Mapped(s.core, pid, page) ==> off + size <= |Source(st, s, pid, page)|)
  }

  /** main_solicitarBytesPagina with any size. */
  ghost function ReadRaw(st: Settings, s: State, pid: int, page: int, off: nat, size: nat): (r: (State, int, seq<Byte>))
    requires Inv(st, s) && Ready(st, s, RqRead(pid, page, 0, 0)) && Reaches(st, s, pid, page, off, size)
  {
    var (t, code, _) := Read(st, s, pid, page, 0, 0);
    (t, code, if Mapped(s.core, pid, page) then Source(st, s, pid, page)[off..off + size] else [])
  }

  /** Within the page it is the read that the cache does not show in. */
  lemma RawWithin(st: Settings, s: State, pid: int, page: int, off: nat, size: nat)
    requires Inv(st, s) && Ready(st, s, RqRead(pid, page, off, size))
    ensures Reaches(st, s, pid, page, off, size)
    ensures ReadRaw(st, s, pid, page, off, size) == Read(st, s, pid, page, off, size)
  {
    hide CoreInv, CacheInv, PageBytes, FrameOf, Source;
    ReadStep(st, s, pid, page, off, size);
    ReadStep(st, s, pid, page, 0, 0);
    if Mapped(s.core, pid, page) {
      var b, run := PageBytes(st.geo, s.core, pid, page), Source(st, s, pid, page);
      assert run[..|b|] == b;
      assert run[off..off + size] == b[off..off + size];
    }
  }

  /** A read of any size keeps the cache sound and memory as it was. */
  lemma RawStep(st: Settings, s: State, pid: int, page: int, off: nat, size: nat)
    requires Inv(st, s) && Ready(st, s, RqRead(pid, page, 0, 0)) && Reaches(st, s, pid, page, off, size)
    ensures var (t, c, b) := ReadRaw(st, s, pid, page, off, size);
      && Inv(st, t) && t.core == s.core
      && (t, c) == (Read(st, s, pid, page, 0, 0).0, Read(st, s, pid, page, 0, 0).1)
      && (c >= 0 <==> Mapped(s.core, pid, page)) && |b| == if Mapped(s.core, pid, page) then size else 0
  {
    hide CoreInv, CacheInv, PageBytes, FrameOf, Source;
    ReadStep(st, s, pid, page, 0, 0);
  }

  /** memcpy out of memory from frame f on. */
  lemma FrameRunIs(g: Geometry, m: seq<Byte>, f: nat, a: nat, off: nat, size: nat)
    requires GeometryOk(g) && |m| == g.frames * g.frameSize && TableFrames(g) <= f < g.frames
    requires off + size <= |FrameRun(CoreOf(g, m).data, f - TableFrames(g))| && a == f * g.frameSize
    ensures a + off + size <= |m|
    ensures m[a + off..a + off + size] == FrameRun(CoreOf(g, m).data, f - TableFrames(g))[off..off + size]
  {
    hide TableFrames, FrameRun, CoreOf;
    RunStretch(g, m, f, a);
    Within(m, a, a + |FrameRun(CoreOf(g, m).data, f - TableFrames(g))|, off, off + size);
  }

  lemma RunStretch(g: Geometry, m: seq<Byte>, f: nat, a: nat)
    requires GeometryOk(g) && |m| == g.frames * g.frameSize && TableFrames(g) <= f < g.frames
    requires a == f * g.frameSize
    ensures var run := FrameRun(CoreOf(g, m).data, f - TableFrames(g));
      a + |run| <= |m| && m[a..a + |run|] == run
  {
    hide TableOf, TableFrames;
    var p, d, j := g.frameSize, CoreOf(g, m).data, f - TableFrames(g);
    FrameFits(g, f);
    assert d[j] == FrameAt(g, m, f) == m[a..a + p];
    if j + 1 < |d| {
      FrameFits(g, f + 1);
      TimesStep(p, f);
      assert d[j + 1] == FrameAt(g, m, f + 1) == m[a + p..a + p + p];
      Joins(m, a, a + p, a + p + p);
    }
  }

  /** A read served by slot i. */
  lemma HitReads(st: Settings, s: State, pid: int, page: int, off: nat, size: nat)
    requires Inv(st, s) && Ready(st, s, RqRead(pid, page, off, size))
    requires SlotOf(s.cache, pid, page) >= 0
    ensures var i := SlotOf(s.cache, pid, page);
      && off + size <= |s.cache[i].content|
      && |s.uses| == |s.cache|
      && Read(st, s, pid, page, off, size) == (Touch(s, i, s.cache[i]), 0, s.cache[i].content[off..off + size])
  {
  }

  /** A read served by memory, with or without room to cache the page. */
  lemma MissReads(st: Settings, s: State, pid: int, page: int, off: nat, size: nat)
    requires Inv(st, s) && Ready(st, s, RqRead(pid, page, off, size))
    requires SlotOf(s.cache, pid, page) < 0
    ensures SlotCount(s.cache, pid) < st.perProcess ==> |s.uses| == |s.cache| > 0
    ensures var f := FrameOf(s.core.table, pid, page);
      && (f >= 0 ==> TableFrames(st.geo) <= f < st.geo.frames)
      && Read(st, s, pid, page, off, size)
         == (if SlotCount(s.cache, pid) < st.perProcess
             then Touch(s, Victim(s.uses), Slot(pid, page, PageBytes(st.geo, s.core, pid, page))) else s,
             if f >= 0 then f else -1,
             if f >= 0 then s.core.data[f - TableFrames(st.geo)][off..off + size] else [])
  {
    FrameAfterTable(st.geo, s.core.table, pid, page);
  }

  lemma RawHit(st: Settings, s: State, pid: int, page: int, off: nat, size: nat)
    requires Inv(st, s) && Ready(st, s, RqRead(pid, page, 0, 0)) && Reaches(st, s, pid, page, off, size)
    requires SlotOf(s.cache, pid, page) >= 0
    ensures var i := SlotOf(s.cache, pid, page);
      && |s.uses| == |s.cache|
      && (i + 1 < |s.cache| ==> IsInt(s.cache[i + 1].pid) && IsInt(s.cache[i + 1].page))
      && off + size <= |SlotRun(s.cache, i)|
      && ReadRaw(st, s, pid, page, off, size)
         == (Touch(s, i, s.cache[i]), 0, SlotRun(s.cache, i)[off..off + size])
  {
    hide Count, SlotCount, LastTouch, CoreInv, SlotRun, PageBytes;
    HitReads(st, s, pid, page, 0, 0);
    var i := SlotOf(s.cache, pid, page);
    if i + 1 < |s.cache| {
      SlotInts(st, s, i + 1);
    }
  }

  lemma MissSource(st: Settings, s: State, pid: int, page: int)
    requires Inv(st, s) && pid >= 1 && Mapped(s.core, pid, page) && SlotOf(s.cache, pid, page) < 0
    ensures var f := FrameOf(s.core.table, pid, page);
      && GeometryOk(st.geo) && TableFrames(st.geo) <= f < st.geo.frames == |s.core.data| + TableFrames(st.geo)
      && Source(st, s, pid, page) == FrameRun(s.core.data, f - TableFrames(st.geo))
      && st.geo.frameSize <= |Source(st, s, pid, page)|
  {
    hide CacheInv, FrameOf, Count, FrameRun;
    FrameAfterTable(st.geo, s.core.table, pid, page);
  }

  lemma RawMiss(st: Settings, s: State, m: seq<Byte>, pid: int, page: int, off: nat, size: nat)
    requires Inv(st, s) && Ready(st, s, RqRead(pid, page, 0, 0)) && Reaches(st, s, pid, page, off, size)
    requires |m| == st.geo.frames * st.geo.frameSize && s.core == CoreOf(st.geo, m)
    requires SlotOf(s.cache, pid, page) < 0
    ensures SlotCount(s.cache, pid) < st.perProcess ==> |s.uses| == |s.cache| > 0
    ensures var f := FrameOf(s.core.table, pid, page); var at := f * st.geo.frameSize + off;
      && (f >= 0 ==> TableFrames(st.geo) <= f < st.geo.frames && 0 <= at && at + size <= |m|)
      && ReadRaw(st, s, pid, page, off, size)
         == (if SlotCount(s.cache, pid) < st.perProcess
             then Touch(s, Victim(s.uses), Slot(pid, page, PageBytes(st.geo, s.core, pid, page))) else s,
             if f >= 0 then f else -1,
             if f >= 0 then m[at..at + size] else [])
  {
    hide CoreInv, CacheInv, SlotOf, FrameOf, SlotCount, Source, FrameRun, Victim, CoreOf, Read;
    MissReads(st, s, pid, page, 0, 0);
    var f := FrameOf(s.core.table, pid, page);
    if f >= 0 {
      MissSource(st, s, pid, page);
      FrameRunIs(st.geo, m, f, f * st.geo.frameSize, off, size);
    }
  }

  /** A write reaches memory, and then the slot of the page if there is one. */
  lemma WriteParts(st: Settings, s: State, pid: int, page: int, off: nat, d: seq<Byte>)
    requires Inv(st, s) && Ready(st, s, RqWrite(pid, page, off, d))
    ensures var (c, f) := CoreWrite(st.geo, s.core, pid, page, off, d); var i := SlotOf(s.cache, pid, page);
      && CoreInv(st.geo, c)
      && (i >= 0 ==> Mapped(c, pid, page) && |s.uses| == |s.cache|)
      && Write(st, s, pid, page, off, d)
         == (if i >= 0 then Touch(s.(core := c), i, Slot(pid, page, PageBytes(st.geo, c, pid, page)))
             else s.(core := c), f)
  {
    hide FrameOf, CoreWrite, PageBytes, Count, TableInv, SlotCount, LastTouch;
    CoreWriteCorrect(st.geo, s.core, pid, page, off, d);
    if SlotOf(s.cache, pid, page) >= 0 {
      assert SlotTrue(st.geo, s.core, s.cache[SlotOf(s.cache, pid, page)]);
      WrittenPage(st.geo, s.core, pid, page, off, d);
    }
  }

  /** One turn of the assignment loop. */
  lemma AssignTurn(g: Geometry, t: seq<Entry>, pid: int, k: int)
    requires TableInv(g, t) && pid >= 1 && IsInt(pid) && 0 < k <= Count(t, NOBODY)
    ensures 0 <= FirstFree(t) < g.frames
    ensures Count(t, pid) <= g.frames && IsInt(Count(t, pid) + 1)
    ensures AssignOne(t, pid) == t[FirstFree(t) := Entry(FirstFree(t), pid, Count(t, pid))]
    ensures TableInv(g, AssignOne(t, pid))
    ensures k - 1 <= Count(AssignOne(t, pid), NOBODY)
    ensures AssignMany(t, pid, k) == AssignMany(AssignOne(t, pid), pid, k - 1)
  {
    hide TableInv, FrameOf;
    CountNone(t, NOBODY);
    AssignOneInv(g, t, pid);
    AssignCounts(t, pid, NOBODY);
    AssignCounts(t, pid, pid);
    CountFits(g, t, pid);
  }

  lemma CountFits(g: Geometry, t: seq<Entry>, pid: int)
    requires TableInv(g, t) && FirstFree(t) >= 0 && pid != NOBODY
    ensures |t| == g.frames && IsInt(Count(t, pid) + 1)
  {
    CountUpdate(t, FirstFree(t), Entry(0, pid, 0), pid);
  }

  lemma AssignNone(t: seq<Entry>, pid: int, n: int)
    requires pid != NOBODY && n <= 0
    ensures n <= Count(t, NOBODY)
    ensures AssignMany(t, pid, n) == t
  {
  }
}
