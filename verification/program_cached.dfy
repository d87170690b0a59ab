/** Fetches that run past their second page, through the cache: what they give depends on
    whether that page is cached, so that the same fetch done twice can give two answers. */
module ProgramCached {
  import opened Bytes
  import opened MemoryTable
  import opened MemorySpec
  import opened MemoryTheorems
  import opened Pcb
  import opened ProgramImage
  import opened ProgramOverrun
  import opened Layouts

  /** A stored NUL-free program, and a stretch of it that starts in page k and ends past the
      next page, though the guard on the length lets it through. */
  ghost predicate RunsPast(st: Settings, s: State, pid: int, program: seq<Byte>, k: nat, off: nat, length: nat)
    requires Inv(st, s)
  {
    && GeometryOk(st.geo) && pid >= 1
    && Stored(st.geo, s.core, pid, program) && NulFree(program)
    && off < st.geo.frameSize && length <= 2 * st.geo.frameSize < off + length
    && k * st.geo.frameSize + off + length <= |program|
  }

  /** The stretch, and the end of it that lies past the second page. */
  function Wanted(program: seq<Byte>, p: nat, k: nat, off: nat, length: nat): seq<Byte>
    requires k * p + off + length <= |program|
  {
    program[k * p + off..k * p + off + length]
  }

  function Rest(program: seq<Byte>, p: nat, k: nat, off: nat, length: nat): (r: seq<Byte>)
    requires 2 * p <= off + length && k * p + off + length <= |program|
    ensures |r| == off + length - 2 * p
  {
    program[k * p + 2 * p..k * p + off + length]
  }

  /** The server after the first of the two reads. */
  ghost function Between(st: Settings, s: State, pid: int, k: nat, off: nat): State
    requires Inv(st, s) && pid >= 1 && off < st.geo.frameSize && CanAsk(st, s, pid, k)
  {
    Asked(st, s, pid, k, off, st.geo.frameSize - off).0
  }

  /** Such a stretch is fetched exactly iff its end is what lies behind the second page where
      the second read finds it. */
  lemma PastExactIff(st: Settings, s: State, pid: int, program: seq<Byte>, k: nat, off: nat, length: nat)
    requires Inv(st, s) && RunsPast(st, s, pid, program, k, off, length)
    requires CanAsk(st, s, pid, k) && CanFetchAt(st, s, pid, k, off, length)
    ensures var t, p := Between(st, s, pid, k, off), st.geo.frameSize;
      && Inv(st, t) && t.core == s.core && Mapped(s.core, pid, k) && Mapped(t.core, pid, k + 1)
      && off + length - p <= |Source(st, t, pid, k + 1)|
      && (FetchedAt(st, s, pid, k, off, length).1 == Some(Wanted(program, p, k, off, length))
          <==> Source(st, t, pid, k + 1)[p..off + length - p] == Rest(program, p, k, off, length))
  {
    hide CoreInv, CacheInv, Stored, NulFree, PageBytes, CString, FrameOf, Source, Mapped, Asked, CanAsk;
    var p, at := st.geo.frameSize, k * st.geo.frameSize;
    TimesStep(p, k);
    AskedIs(st, s, pid, k, off, p - off, k + 1);
    var t := Between(st, s, pid, k, off);
    PieceInPage(st.geo, s.core, pid, program, k, at, off, p);
    PieceInPage(st.geo, s.core, pid, program, k + 1, at + p, 0, p);
    SecondAnswer(st, t, pid, k + 1, off + length - p);
    var x, y := PageBytes(st.geo, s.core, pid, k)[off..p], PageBytes(st.geo, s.core, pid, k + 1);
    assert y[0..p] == y;
    var z := Source(st, t, pid, k + 1)[p..off + length - p];
    TailDecides(program, at + off, at + off + length, at + p, x, y, z);
    assert off + (p - off) == p;
  }

  lemma SecondAnswer(st: Settings, t: State, pid: int, page: nat, size: nat)
    requires Inv(st, t) && pid >= 1 && CanAsk(st, t, pid, page) && Mapped(t.core, pid, page)
    requires st.geo.frameSize < size && Reaches(st, t, pid, page, 0, size)
    ensures size <= |Source(st, t, pid, page)|
    ensures Asked(st, t, pid, page, 0, size).1
         == Some(CString(PageBytes(st.geo, t.core, pid, page) + Source(st, t, pid, page)[st.geo.frameSize..size]))
  {
    hide CoreInv, CacheInv, PageBytes, CString, FrameOf, Source, Mapped, Read;
    RawStep(st, t, pid, page, 0, size);
    var b, run := PageBytes(st.geo, t.core, pid, page), Source(st, t, pid, page);
    assert run[0..size] == b + run[|b|..size];
  }

  /** Where the second read finds it: in the frame behind, when the page is not cached. */
  lemma BehindInMemory(st: Settings, s: State, pid: int, page: int, n: nat)
    requires Inv(st, s) && pid >= 1 && Mapped(s.core, pid, page) && SlotOf(s.cache, pid, page) < 0
    requires st.geo.frameSize < n <= |Source(st, s, pid, page)|
    ensures var j := FrameOf(s.core.table, pid, page) + 1 - TableFrames(st.geo);
      && 0 < j < |s.core.data| && n - st.geo.frameSize <= |s.core.data[j]|
      && Source(st, s, pid, page)[st.geo.frameSize..n] == s.core.data[j][..n - st.geo.frameSize]
  {
    hide CacheInv, FrameOf, Count, TableInv, Source;
    MissSource(st, s, pid, page);
  }

  /** So a server that does not hold the second page in its cache fetches exactly what the
      memory-only reading of the fetch does. */
  lemma UncachedIsRaw(st: Settings, s: State, m: seq<Byte>, pid: int, program: seq<Byte>, start: nat, length: nat,
                      k: nat, off: nat)
    requires Inv(st, s) && RunsPast(st, s, pid, program, k, off, length)
    requires k == start / st.geo.frameSize && off == start % st.geo.frameSize && start + length <= |program|
    requires CanAsk(st, s, pid, k) && CanFetchAt(st, s, pid, k, off, length)
    requires SlotOf(Between(st, s, pid, k, off).cache, pid, k + 1) < 0
    requires |m| == st.geo.frames * st.geo.frameSize && s.core == CoreOf(st.geo, m)
    ensures SecondReadInMemory(st.geo, m, pid, start, length)
    ensures FetchedAt(st, s, pid, k, off, length).1 == Some(program[start..start + length])
       <==> RawFetched(st.geo, m, pid, start, length) == Some(program[start..start + length])
  {
    hide CoreInv, CacheInv, CoreOf, Stored, NulFree, FrameOf, Source, Asked, CanAsk, FetchedAt, RawFetched, FrameAt,
         Mapped, CanFetchAt, Between;
    var p, t, past := st.geo.frameSize, Between(st, s, pid, k, off), off + length - 2 * st.geo.frameSize;
    PageStart(start, p);
    PastExactIff(st, s, pid, program, k, off, length);
    BehindInMemory(st, t, pid, k + 1, off + length - p);
    DataIsFrame(st.geo, m, FrameOf(s.core.table, pid, k + 1) + 1 - TableFrames(st.geo));
    FetchPast(st.geo, m, pid, program, start, length, k, k * p);
    assert Wanted(program, p, k, off, length) == program[start..start + length];
    assert Rest(program, p, k, off, length) == program[start + length - past..start + length];
  }

  lemma DataIsFrame(g: Geometry, m: seq<Byte>, j: nat)
    requires GeometryOk(g) && |m| == g.frames * g.frameSize && j < |CoreOf(g, m).data|
    ensures j + TableFrames(g) < g.frames && CoreOf(g, m).data[j] == FrameAt(g, m, j + TableFrames(g))
  {
  }

  /** In the next entry of the cache, its pid and page first, when it is. */
  lemma BehindInCache(st: Settings, s: State, pid: int, page: int, i: nat, n: nat)
    requires Inv(st, s) && pid >= 1 && Mapped(s.core, pid, page) && i == SlotOf(s.cache, pid, page) + 1 > 0
    requires st.geo.frameSize < n <= |Source(st, s, pid, page)|
    ensures i < |s.cache| && IsInt(s.cache[i].pid) && IsInt(s.cache[i].page)
    ensures n - st.geo.frameSize <= |SlotBytes(s.cache[i])|
    ensures Source(st, s, pid, page)[st.geo.frameSize..n] == SlotBytes(s.cache[i])[..n - st.geo.frameSize]
  {
    hide CoreInv, CacheInv, PageBytes, SlotBytes, Source, SlotOf, FrameOf;
    HitSource(st, s, pid, page);
  }

  lemma HitSource(st: Settings, s: State, pid: int, page: int)
    requires Inv(st, s) && pid >= 1 && Mapped(s.core, pid, page) && SlotOf(s.cache, pid, page) >= 0
    ensures var i := SlotOf(s.cache, pid, page);
      && |s.cache[i].content| == st.geo.frameSize
      && (i + 1 < |s.cache| ==> |s.cache[i + 1].content| == st.geo.frameSize
                                && IsInt(s.cache[i + 1].pid) && IsInt(s.cache[i + 1].page))
      && Source(st, s, pid, page) == SlotRun(s.cache, i)
  {
    hide CoreInv, Count, SlotCount, LastTouch, PageBytes, SlotRun;
    var i := SlotOf(s.cache, pid, page);
    if i + 1 < |s.cache| {
      SlotInts(st, s, i + 1);
    }
  }

  /** No program text looks like the head of a cache entry: a free entry starts with a byte
      255, and of the pid of any other the fourth byte is 0. */
  lemma HeadIsNoText(e: Slot, n: nat, text: seq<Byte>)
    requires IsInt(e.pid) && IsInt(e.page) && 0 < n <= |SlotBytes(e)| && n == |text|
    requires NulFree(text) && 255 !in text
    requires e.pid == NOBODY || (0 <= e.pid < 0x100_0000 && n >= INT_BYTES)
    ensures SlotBytes(e)[..n] != text
  {
    var b := SlotBytes(e);
    SlotLayout(e);
    IntBytes(e.pid);
    if e.pid == NOBODY {
      assert b[..n][0] == b[..4][0] == 255;
    } else {
      assert b[..n][3] == b[..4][3] == 0;
    }
  }

  lemma RestIsText(program: seq<Byte>, p: nat, k: nat, off: nat, length: nat)
    requires NulFree(program) && 255 !in program && 2 * p <= off + length && k * p + off + length <= |program|
    ensures NulFree(Rest(program, p, k, off, length)) && 255 !in Rest(program, p, k, off, length)
  {
    Stretch(program, k * p + 2 * p, k * p + off + length);
  }

  /** A stretch that runs four bytes or more past a cached page, or any number of them with a
      free entry behind it, is never fetched exactly, whatever memory holds. */
  lemma CachedNeverExact(st: Settings, s: State, pid: int, program: seq<Byte>, k: nat, off: nat, length: nat)
    requires Inv(st, s) && RunsPast(st, s, pid, program, k, off, length) && 255 !in program
    requires CanAsk(st, s, pid, k) && CanFetchAt(st, s, pid, k, off, length)
    requires var t := Between(st, s, pid, k, off); var i := SlotOf(t.cache, pid, k + 1) + 1;
      && 0 < i < |t.cache|
      && (t.cache[i].pid == NOBODY
          || (t.cache[i].pid < 0x100_0000 && off + length - 2 * st.geo.frameSize >= INT_BYTES))
    ensures FetchedAt(st, s, pid, k, off, length).1 != Some(Wanted(program, st.geo.frameSize, k, off, length))
  {
    hide CoreInv, CacheInv, Stored, NulFree, PageBytes, CString, FrameOf, Source, Mapped, Asked, CanAsk, SlotBytes;
    var p, t := st.geo.frameSize, Between(st, s, pid, k, off);
    PastExactIff(st, s, pid, program, k, off, length);
    var i := SlotOf(t.cache, pid, k + 1) + 1;
    BehindInCache(st, t, pid, k + 1, i, off + length - p);
    RestIsText(program, p, k, off, length);
    Owner(st, t, i);
    HeadIsNoText(t.cache[i], off + length - 2 * p, Rest(program, p, k, off, length));
  }

  lemma Owner(st: Settings, s: State, i: nat)
    requires Inv(st, s) && i < |s.cache|
    ensures s.cache[i].pid == NOBODY || s.cache[i].pid >= 1
  {
    hide CoreInv;
  }

  // ----- the same fetch twice -----

  /** Pages k to k + n - 1 of the process are in slots 0 to n - 1, the other slots are free
      and were never used. */
  ghost predicate Filled(s: State, pid: int, k: nat, n: nat) {
    && n <= |s.cache| == |s.uses|
    && SlotCount(s.cache, pid) == n
    && (forall i :: 0 <= i < n ==> s.cache[i].pid == pid && s.cache[i].page == k + i && s.uses[i] != NEVER)
    && (forall i :: n <= i < |s.cache| ==> s.cache[i].pid == NOBODY && s.uses[i] == NEVER)
  }

  lemma FlushedIsFilled(s: State, pid: int, k: nat)
    requires pid >= 1 && |s.cache| == |s.uses|
    ensures Filled(Flush(s), pid, k, 0)
  {
    SlotCountNone(Flush(s).cache, pid);
  }

  lemma NotYet(s: State, pid: int, k: nat, n: nat)
    requires pid >= 1 && Filled(s, pid, k, n)
    ensures SlotOf(s.cache, pid, k + n) < 0
  {
  }

  /** Asking for the next page takes the next slot. */
  lemma FillNext(st: Settings, s: State, pid: int, k: nat, n: nat, off: nat, size: nat)
    requires Inv(st, s) && pid >= 1 && Filled(s, pid, k, n) && n < st.slots && n < st.perProcess
    requires CanAsk(st, s, pid, k + n) && Mapped(s.core, pid, k + n) && Reaches(st, s, pid, k + n, off, size)
    ensures Filled(Asked(st, s, pid, k + n, off, size).0, pid, k, n + 1)
  {
    hide CoreInv, CacheInv, PageBytes, CString, FrameOf, Source, Mapped, SlotCount, Read;
    var e := Slot(pid, k + n, PageBytes(st.geo, s.core, pid, k + n));
    assert |s.cache| == st.slots by { Slots(st, s); }
    NotYet(s, pid, k, n);
    assert s.uses[n] == NEVER && FirstNever(s.uses) == n;
    MissReads(st, s, pid, k + n, 0, 0);
    SlotCountUpdate(s.cache, n, e, pid);
    assert Asked(st, s, pid, k + n, off, size).0 == Touch(s, n, e);
  }

  /** Asking for a page that is there finds it in its slot. */
  lemma FillHit(st: Settings, s: State, pid: int, k: nat, n: nat, i: nat, off: nat, size: nat)
    requires Inv(st, s) && pid >= 1 && Filled(s, pid, k, n) && i < n
    requires CanAsk(st, s, pid, k + i) && Reaches(st, s, pid, k + i, off, size)
    ensures SlotOf(s.cache, pid, k + i) == i
    ensures Filled(Asked(st, s, pid, k + i, off, size).0, pid, k, n)
  {
    hide CoreInv, CacheInv, PageBytes, CString, FrameOf, Source, Mapped, SlotCount, Read;
    assert s.cache[i].pid == pid && SlotOf(s.cache, pid, k + i) == i;
    HitReads(st, s, pid, k + i, 0, 0);
    SlotCountUpdate(s.cache, i, s.cache[i], pid);
    assert Asked(st, s, pid, k + i, off, size).0 == Touch(s, i, s.cache[i]);
  }

  lemma Slots(st: Settings, s: State)
    requires Inv(st, s)
    ensures |s.cache| == |s.uses| == st.slots
  {
  }

  /** The pages of a stretch that runs past are there to be asked for. */
  lemma PagesThere(st: Settings, s: State, pid: int, program: seq<Byte>, k: nat, off: nat, length: nat)
    requires Inv(st, s) && RunsPast(st, s, pid, program, k, off, length)
    ensures Mapped(s.core, pid, k) && Mapped(s.core, pid, k + 1)
    ensures CanAsk(st, s, pid, k) && CanAsk(st, s, pid, k + 1)
    ensures st.geo.frameSize <= |Source(st, s, pid, k)| && st.geo.frameSize <= |Source(st, s, pid, k + 1)|
  {
    hide CoreInv, CacheInv, Stored, NulFree, PageBytes, FrameOf, Source, Mapped;
    var p, at := st.geo.frameSize, k * st.geo.frameSize;
    TimesStep(p, k);
    PieceInPage(st.geo, s.core, pid, program, k, at, off, p);
    PieceInPage(st.geo, s.core, pid, program, k + 1, at + p, 0, p);
  }

  lemma FirstTime(st: Settings, s: State, pid: int, program: seq<Byte>, k: nat, off: nat, length: nat)
    requires Inv(st, s) && RunsPast(st, s, pid, program, k, off, length)
    requires Filled(s, pid, k, 0) && st.slots >= 3 && st.perProcess >= 2
    requires FrameOf(s.core.table, pid, k + 2) == FrameOf(s.core.table, pid, k + 1) + 1
    ensures CanFetchAt(st, s, pid, k, off, length)
    ensures var (u, r) := FetchedAt(st, s, pid, k, off, length);
      && r == Some(Wanted(program, st.geo.frameSize, k, off, length))
      && Inv(st, u) && u.core == s.core && Filled(u, pid, k, 2)
  {
    hide CoreInv, CacheInv, Stored, NulFree, PageBytes, CString, FrameOf, Source, Mapped, Asked, CanAsk, Filled;
    var p := st.geo.frameSize;
    PagesThere(st, s, pid, program, k, off, length);
    AskedIs(st, s, pid, k, off, p - off, k + 1);
    FillNext(st, s, pid, k, 0, off, p - off);
    var t := Between(st, s, pid, k, off);
    PagesThere(st, t, pid, program, k, off, length);
    NotYet(t, pid, k, 1);
    NextFrameHolds(st, t, pid, program, k, off, length);
    FillNext(st, t, pid, k, 1, 0, off + length - p);
    AskedIs(st, t, pid, k + 1, 0, off + length - p, k);
    PastExactIff(st, s, pid, program, k, off, length);
  }

  /** What the second read finds in memory when page k + 2 lies behind page k + 1. */
  lemma NextFrameHolds(st: Settings, t: State, pid: int, program: seq<Byte>, k: nat, off: nat, length: nat)
    requires Inv(st, t) && RunsPast(st, t, pid, program, k, off, length)
    requires Mapped(t.core, pid, k + 1) && SlotOf(t.cache, pid, k + 1) < 0
    requires FrameOf(t.core.table, pid, k + 2) == FrameOf(t.core.table, pid, k + 1) + 1
    ensures off + length - st.geo.frameSize <= |Source(st, t, pid, k + 1)|
    ensures Source(st, t, pid, k + 1)[st.geo.frameSize..off + length - st.geo.frameSize]
         == Rest(program, st.geo.frameSize, k, off, length)
  {
    hide CoreInv, CacheInv, Stored, NulFree, PageBytes, FrameOf, Source, StrNCpy;
    var p, at := st.geo.frameSize, k * st.geo.frameSize;
    TimesStep(p, k);
    TimesStep(p, k + 1);
    PieceInPage(st.geo, t.core, pid, program, k + 2, at + 2 * p, 0, off + length - 2 * p);
    NextInSource(st, t, pid, k + 1);
    BehindInMemory(st, t, pid, k + 1, off + length - p);
    assert PageBytes(st.geo, t.core, pid, k + 2)[0..off + length - 2 * p]
        == PageBytes(st.geo, t.core, pid, k + 2)[..off + length - 2 * p];
  }

  lemma NextInSource(st: Settings, t: State, pid: int, page: int)
    requires Inv(st, t) && pid >= 1 && Mapped(t.core, pid, page) && SlotOf(t.cache, pid, page) < 0
    requires FrameOf(t.core.table, pid, page + 1) == FrameOf(t.core.table, pid, page) + 1
    ensures |Source(st, t, pid, page)| == 2 * st.geo.frameSize && Mapped(t.core, pid, page + 1)
    ensures var j := FrameOf(t.core.table, pid, page) + 1 - TableFrames(st.geo);
      0 <= j < |t.core.data| && t.core.data[j] == PageBytes(st.geo, t.core, pid, page + 1)
  {
    hide CacheInv, FrameOf, Count, Source;
    MissSource(st, t, pid, page);
    FrameAfterTable(st.geo, t.core.table, pid, page + 1);
  }

  lemma SecondTime(st: Settings, s: State, pid: int, program: seq<Byte>, k: nat, off: nat, length: nat)
    requires Inv(st, s) && RunsPast(st, s, pid, program, k, off, length) && 255 !in program
    requires Filled(s, pid, k, 2) && st.slots >= 3
    ensures CanFetchAt(st, s, pid, k, off, length)
    ensures FetchedAt(st, s, pid, k, off, length).1 != Some(Wanted(program, st.geo.frameSize, k, off, length))
  {
    hide CoreInv, CacheInv, Stored, NulFree, PageBytes, CString, FrameOf, Source, Mapped, Asked, CanAsk, SlotBytes;
    var p := st.geo.frameSize;
    PagesThere(st, s, pid, program, k, off, length);
    AskedIs(st, s, pid, k, off, p - off, k + 1);
    FillHit(st, s, pid, k, 2, 0, off, p - off);
    var t := Between(st, s, pid, k, off);
    PagesThere(st, t, pid, program, k, off, length);
    Slots(st, t);
    FillHit(st, t, pid, k, 2, 1, 0, p);
    CachedReach(st, t, pid, k + 1);
    CachedNeverExact(st, s, pid, program, k, off, length);
  }

  lemma CachedReach(st: Settings, s: State, pid: int, page: int)
    requires Inv(st, s) && pid >= 1 && Mapped(s.core, pid, page)
    requires 0 <= SlotOf(s.cache, pid, page) && SlotOf(s.cache, pid, page) + 1 < |s.cache|
    ensures |Source(st, s, pid, page)| == 2 * st.geo.frameSize + 2 * INT_BYTES
  {
    hide CoreInv, CacheInv, PageBytes, SlotBytes, Source, SlotOf, FrameOf;
    HitSource(st, s, pid, page);
  }

  /** With an empty cache that has room for two pages of the process and one more, a fetch
      that runs past its second page reads memory the first time, so that a program in
      adjacent frames is fetched exactly; done again it reads the cache, and is wrong. */
  lemma SecondTimeWrong(st: Settings, s: State, pid: int, program: seq<Byte>, k: nat, off: nat, length: nat)
    requires Inv(st, s) && RunsPast(st, s, pid, program, k, off, length) && 255 !in program
    requires Filled(s, pid, k, 0) && st.slots >= 3 && st.perProcess >= 2
    requires FrameOf(s.core.table, pid, k + 2) == FrameOf(s.core.table, pid, k + 1) + 1
    ensures CanFetchAt(st, s, pid, k, off, length)
    ensures var (u, first) := FetchedAt(st, s, pid, k, off, length);
      && first == Some(Wanted(program, st.geo.frameSize, k, off, length))
      && Inv(st, u) && CanFetchAt(st, u, pid, k, off, length)
      && FetchedAt(st, u, pid, k, off, length).1 != first
  {
    hide CoreInv, CacheInv, Stored, FetchedAt, CanFetchAt, Filled, FrameOf;
    FirstTime(st, s, pid, program, k, off, length);
    SecondTime(st, FetchedAt(st, s, pid, k, off, length).0, pid, program, k, off, length);
  }
}
