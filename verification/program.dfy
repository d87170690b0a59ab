/** The code of a process in its pages: the kernel stores it a page at a time when the
    process is admitted, and the CPU fetches instructions from it, in two pieces when they
    cross into the next page. */
module ProgramImage {
  import opened Bytes
  import opened MemoryTable
  import opened MemorySpec
  import opened MemoryTheorems
  import opened MemoryServer
  import opened Pcb

  // ----- C strings -----

  /** Index of the first NUL, or the length. */
  function NulAt(b: seq<Byte>): (z: nat)
    ensures z <= |b|
    ensures forall i :: 0 <= i < z ==> b[i] != 0
    ensures z < |b| ==> b[z] == 0
  {
    if b == [] || b[0] == 0 then 0 else 1 + NulAt(b[1..])
  }

  /** What string functions see of a buffer that ends in a NUL of its own. */
  function CString(b: seq<Byte>): seq<Byte> { b[..NulAt(b)] }

  /** strncpy of |b| bytes: nothing is copied past a NUL, the rest is filled with NULs. */
  function StrNCpy(b: seq<Byte>): (r: seq<Byte>)
    ensures |r| == |b|
  {
    CString(b) + seq(|b| - NulAt(b), _ => 0)
  }

  /** What a buffer is as a string: the bytes before its first NUL; and what strncpy makes of
      it: those bytes, and NULs for all the rest. */
  lemma StringsStop(b: seq<Byte>)
    ensures var r := CString(b);
      && r <= b && (forall i :: 0 <= i < |r| ==> r[i] != 0) && (|r| < |b| ==> b[|r|] == 0)
      && forall i :: 0 <= i < |b| ==> StrNCpy(b)[i] == if i < |r| then b[i] else 0
  {
  }

  /** strncpy copies a buffer as it is iff nothing but NULs follows its first NUL. */
  lemma StrNCpyFaithful(b: seq<Byte>)
    ensures StrNCpy(b) == b <==> forall i, j :: 0 <= i < j < |b| && b[i] == 0 ==> b[j] == 0
  {
    var z := NulAt(b);
    if StrNCpy(b) == b {
      forall j | z <= j < |b|
        ensures b[j] == 0
      {
        assert StrNCpy(b)[j] == 0;
      }
    } else {
      assert exists j :: z < j < |b| && b[j] != 0 by {
        if forall j :: z < j < |b| ==> b[j] == 0 {
          assert forall k :: 0 <= k < |b| ==> StrNCpy(b)[k] == b[k];
        }
      }
    }
  }

  /** The least that goes wrong: a NUL in a piece takes the byte behind it with it. */
  lemma StrNCpyLoses(x: Byte)
    requires x != 0
    ensures StrNCpy([0, x]) == [0, 0] != [0, x]
  {
  }

  ghost predicate NulFree(b: seq<Byte>) { forall i :: 0 <= i < |b| ==> b[i] != 0 }

  lemma NulFreeString(b: seq<Byte>)
    requires NulFree(b)
    ensures CString(b) == b && StrNCpy(b) == b
  {
    assert NulAt(b) == |b|;
  }

  // ----- pages of code -----

  /** cantidadPaginasCodigoProceso. */
  function CodePages(size: nat, page: nat): (n: nat)
    requires page > 0
  {
    if size % page == 0 then size / page else size / page + 1
  }

  /** The code fits its pages, and no page is left without code. */
  lemma CodePagesCover(size: nat, page: nat, k: nat)
    requires page > 0
    ensures size <= CodePages(size, page) * page
    ensures k < CodePages(size, page) <==> k * page < size
  {
    var n := CodePages(size, page);
    assert size == page * (size / page) + size % page;
    if k < n {
      TimesGrow(page, k, n - 1);
      TimesStep(page, size / page);
    } else {
      TimesGrow(page, n, k);
      TimesStep(page, size / page);
    }
  }

  lemma TimesGrow(a: nat, x: int, y: int)
    requires x <= y
    ensures x * a <= y * a
  {
  }

  function ChunkEnd(program: seq<Byte>, page: nat, k: nat): (hi: nat)
    requires k * page <= |program|
    ensures k * page <= hi <= |program| && hi - k * page <= page
  {
    if |program| - k * page < page then |program| else k * page + page
  }

  /** The piece of the program that belongs in page k. */
  function Chunk(program: seq<Byte>, page: nat, k: nat): (b: seq<Byte>)
    requires k * page <= |program|
    ensures |b| <= page
  {
    program[k * page..ChunkEnd(program, page, k)]
  }

  /** calcularTamanioParticion: how much goes in the next page, and what is left. */
  method PartitionSize(rest: nat, page: nat) returns (size: nat, left: nat)
    requires page > 0
    ensures size == (if rest < page then rest else page)
    ensures left == (if rest < page then rest else rest - page)
  {
    var mod := rest % page;
    if mod == rest {
      size, left := rest, rest;
    } else {
      left := rest - page;
      size := page;
    }
  }

  /** Every code page of the process holds its piece, as strncpy left it. */
  ghost predicate Stored(g: Geometry, c: Core, pid: int, program: seq<Byte>)
    requires CoreInv(g, c) && GeometryOk(g) && pid >= 1
  {
    StoredTo(g, c, pid, program, CodePages(|program|, g.frameSize))
  }

  ghost predicate StoredTo(g: Geometry, c: Core, pid: int, program: seq<Byte>, n: nat)
    requires CoreInv(g, c) && GeometryOk(g) && pid >= 1
  {
    forall k: nat :: k < n && k * g.frameSize <= |program| ==>
      Mapped(c, pid, k) && StrNCpy(Chunk(program, g.frameSize, k)) <= PageBytes(g, c, pid, k)
  }

  /** Pages other than the first n of this process are as they were. */
  ghost predicate OthersKept(g: Geometry, c: Core, e: Core, pid: int, n: nat)
    requires CoreInv(g, c) && CoreInv(g, e)
  {
    forall q, k :: q >= 1 && Mapped(c, q, k) && !(q == pid && k < n) ==>
      Mapped(e, q, k) && PageBytes(g, e, q, k) == PageBytes(g, c, q, k)
  }

  /** One turn of the store loop. */
  lemma StoreTurn(g: Geometry, o: Core, c: Core, pid: int, program: seq<Byte>, k: nat)
    requires CoreInv(g, o) && CoreInv(g, c) && GeometryOk(g) && pid >= 1 && k * g.frameSize <= |program|
    requires StoredTo(g, c, pid, program, k) && OthersKept(g, o, c, pid, k) && Mapped(c, pid, k)
    ensures var e := CoreWrite(g, c, pid, k, 0, StrNCpy(Chunk(program, g.frameSize, k))).0;
      && CoreInv(g, e) && e.table == c.table
      && StoredTo(g, e, pid, program, k + 1) && OthersKept(g, o, e, pid, k + 1)
  {
    hide CoreInv, PageBytes, FrameOf, CoreWrite, StrNCpy;
    var d := StrNCpy(Chunk(program, g.frameSize, k));
    CoreWriteCorrect(g, c, pid, k, 0, d);
    var e := CoreWrite(g, c, pid, k, 0, d).0;
    forall j: nat | j < k + 1 && j * g.frameSize <= |program|
      ensures Mapped(e, pid, j) && StrNCpy(Chunk(program, g.frameSize, j)) <= PageBytes(g, e, pid, j)
    {
      if j == k {
        assert PageBytes(g, e, pid, k)[..|d|] == d;
      } else {
        assert Mapped(c, pid, j);
      }
    }
  }

  /** almacenarCodigoEnMemoria: it succeeds iff the process has the pages, and then each
      holds its piece of the program; no other page changes. */
  method StoreProgram(m: Memory, pid: int, program: seq<Byte>) returns (code: int)
    requires m.Valid() && pid >= 1
    modifies m, m.memory, m.cache, m.uses
    ensures m.Valid() && m.CoreNow().table == old(m.CoreNow()).table
    ensures code >= 0
            <==> forall k :: 0 <= k < CodePages(|program|, m.st.geo.frameSize) ==> Mapped(old(m.CoreNow()), pid, k)
    ensures code >= 0 ==> Stored(m.st.geo, m.CoreNow(), pid, program)
    ensures OthersKept(m.st.geo, old(m.CoreNow()), m.CoreNow(), pid, CodePages(|program|, m.st.geo.frameSize))
  {
    hide CoreInv, CacheInv, CoreOf, FrameOf, PageBytes, StrNCpy, Read, CoreWrite, CodePages;
    var page := m.st.geo.frameSize;
    var n := CodePages(|program|, page);
    ghost var o := m.CoreNow();
    var rest, at := |program|, 0;
    code := 0;
    var k := 0;
    while k < n && code >= 0
      invariant 0 <= k <= n && m.Valid() && m.CoreNow().table == o.table
      invariant code >= 0 ==> forall j :: 0 <= j < k ==> Mapped(o, pid, j)
      invariant code >= 0 ==> StoredTo(m.st.geo, m.CoreNow(), pid, program, k)
      invariant code < 0 ==> exists j :: 0 <= j < n && !Mapped(o, pid, j)
      invariant OthersKept(m.st.geo, o, m.CoreNow(), pid, k)
      invariant k < n && code >= 0 ==> at == k * page && rest == |program| - at
    {
      CodePagesCover(|program|, page, k);
      CodePagesCover(|program|, page, k + 1);
      TimesStep(page, k);
      var size, left := PartitionSize(rest, page);
      rest := left;
      var part := StrNCpy(program[at..at + size]);
      at := at + size;
      ghost var c := m.CoreNow();
      WriteStep(m.st, m.Now(), pid, k, 0, part);
      CoreWriteCorrect(m.st.geo, c, pid, k, 0, part);
      if Mapped(c, pid, k) {
        StoreTurn(m.st.geo, o, c, pid, program, k);
      }
      code := m.StoreBytes(pid, k, 0, part);
      k := k + 1;
    }
  }

  /** inicializarProcesoEnMemoria, for a process new to the memory server: pedirMemoria asks
      for the pages of code and stack, then the code is stored. It succeeds iff enough
      frames are free; the pages of other processes are as before either way. */
  method LoadProcess(m: Memory, pid: int, program: seq<Byte>, stackPages: nat) returns (code: int)
    requires m.Valid() && pid >= 1 && IsInt(pid) && Count(m.CoreNow().table, pid) == 0
    modifies m, m.memory, m.cache, m.uses
    ensures m.Valid()
    ensures code == 0 || code == -1
    ensures code == 0 <==> Count(old(m.CoreNow()).table, NOBODY) >= CodePages(|program|, m.st.geo.frameSize) + stackPages
    ensures code == -1 ==> m.CoreNow() == old(m.CoreNow())
    ensures code == 0 ==> Stored(m.st.geo, m.CoreNow(), pid, program)
    ensures code == 0 ==> Count(m.CoreNow().table, pid) == CodePages(|program|, m.st.geo.frameSize) + stackPages
    ensures OthersKept(m.st.geo, old(m.CoreNow()), m.CoreNow(), pid, 0)
  {
    hide CacheInv, CoreOf, FrameOf, PageBytes, Read, CoreWrite, CoreAssign, CodePages, TableInv, Count;
    ghost var o := m.CoreNow();
    var pages := CodePages(|program|, m.st.geo.frameSize) + stackPages;
    CoreAssignCorrect(m.st.geo, o, pid, pages);
    code := m.AssignPages(pid, pages);
    ghost var c := m.CoreNow();
    if code < 0 {
      return -1;
    }
    forall k | 0 <= k < CodePages(|program|, m.st.geo.frameSize)
      ensures Mapped(c, pid, k)
    {
      PagesAreAPrefix(m.st.geo, c, pid, k);
    }
    NoPagesYet(m.st.geo, o, pid);
    code := StoreProgram(m, pid, program);
    if code < 0 {
      return -2;
    }
    code := 0;
  }

  lemma NoPagesYet(g: Geometry, c: Core, pid: int)
    requires CoreInv(g, c) && pid >= 1 && Count(c.table, pid) == 0
    ensures forall k :: !Mapped(c, pid, k)
  {
    forall k
      ensures !Mapped(c, pid, k)
    {
      PagesAreAPrefix(g, c, pid, k);
    }
  }

  // ----- fetching -----

  /** obtener_instruccion up to its cut at the newline; None is direccionInvalida. */
  ghost function Fetched(g: Geometry, c: Core, pid: int, start: nat, length: nat): Option<seq<Byte>>
    requires CoreInv(g, c) && GeometryOk(g) && pid >= 1
    requires length <= 2 * g.frameSize ==> start % g.frameSize + length <= 2 * g.frameSize
  {
    var page, off := start / g.frameSize, start % g.frameSize;
    if length > 2 * g.frameSize || !Mapped(c, pid, page) then None
    else if off + length <= g.frameSize then Some(CString(PageBytes(g, c, pid, page)[off..off + length]))
    else if !Mapped(c, pid, page + 1) then None
    else Some(CString(PageBytes(g, c, pid, page)[off..g.frameSize])
              + CString(PageBytes(g, c, pid, page + 1)[0..length - (g.frameSize - off)]))
  }

  /** The page can be asked for: it exists, or the cache will not try to keep it. */
  ghost predicate CanAsk(st: Settings, s: State, pid: int, page: int) {
    Mapped(s.core, pid, page) || SlotCount(s.cache, pid) >= st.perProcess
  }

  /** A read leaves other pages as askable as they were. */
  lemma StillCanAsk(st: Settings, s: State, pid: int, page: int, off: nat, size: nat, other: int)
    requires Inv(st, s) && Ready(st, s, RqRead(pid, page, off, size)) && CanAsk(st, s, pid, other)
    ensures CanAsk(st, Read(st, s, pid, page, off, size).0, pid, other)
  {
    hide CoreInv, CacheInv, PageBytes, FrameOf;
    ReadStep(st, s, pid, page, off, size);
    var i := SlotOf(s.cache, pid, page);
    if i >= 0 {
      SlotCountUpdate(s.cache, i, s.cache[i], pid);
    }
  }

  /** What the server answers, seen as a string. */
  ghost function Asked(st: Settings, s: State, pid: int, page: nat, off: nat, size: nat): (State, Option<seq<Byte>>)
    requires Inv(st, s) && pid >= 1 && CanAsk(st, s, pid, page) && Reaches(st, s, pid, page, off, size)
  {
    var (t, code, b) := ReadRaw(st, s, pid, page, off, size);
    (t, if code < 0 then None else Some(CString(b)))
  }

  /** Within its page an answer is the page's own bytes; with any size the server stays sound,
      its memory as it was, and other pages as askable. */
  lemma AskedIs(st: Settings, s: State, pid: int, page: nat, off: nat, size: nat, other: int)
    requires Inv(st, s) && pid >= 1 && CanAsk(st, s, pid, page) && Reaches(st, s, pid, page, off, size)
    ensures var (t, r) := Asked(st, s, pid, page, off, size);
      && Inv(st, t) && t.core == s.core
      && (r.Some? <==> Mapped(s.core, pid, page))
      && (off + size <= st.geo.frameSize && r.Some? ==>
            r == Some(CString(PageBytes(st.geo, s.core, pid, page)[off..off + size])))
      && (CanAsk(st, s, pid, other) ==> CanAsk(st, t, pid, other))
  {
    hide CoreInv, CacheInv, PageBytes, FrameOf, CString, Read, Mapped, SlotCount, Source;
    RawStep(st, s, pid, page, off, size);
    if off + size <= st.geo.frameSize {
      RawWithin(st, s, pid, page, off, size);
      ReadStep(st, s, pid, page, off, size);
    }
    if CanAsk(st, s, pid, other) {
      StillCanAsk(st, s, pid, page, 0, 0, other);
    }
  }

  /** conseguirDatosMemoria: what the CPU then uses as a string. */
  method AskMemory(m: Memory, pid: int, page: nat, off: nat, size: nat) returns (r: Option<seq<Byte>>)
    requires m.Valid() && pid >= 1 && CanAsk(m.st, m.Now(), pid, page)
    requires Reaches(m.st, m.Now(), pid, page, off, size)
    modifies m, m.cache, m.uses
    ensures m.Valid() && m.CoreNow() == old(m.CoreNow())
    ensures (m.Now(), r) == Asked(m.st, old(m.Now()), pid, page, off, size)
    ensures off + size <= m.st.geo.frameSize ==>
              r == if Mapped(old(m.CoreNow()), pid, page)
                   then Some(CString(PageBytes(m.st.geo, old(m.CoreNow()), pid, page)[off..off + size])) else None
  {
    AskedIs(m.st, m.Now(), pid, page, off, size, page);
    hide CoreInv, CacheInv, CoreOf, FrameOf, PageBytes, Read, SlotCount, CString, Source;
    var code, b := m.RequestBytes(pid, page, off, size);
    if code < 0 {
      return None;
    }
    return Some(CString(b));
  }

  /** What a fetch from an offset of a page on can ask for: pages that can be asked for, and
      a second part that does not run off the end of what the server keeps. */
  ghost predicate CanFetchAt(st: Settings, s: State, pid: int, page: nat, off: nat, length: nat)
    requires Inv(st, s) && pid >= 1 && off < st.geo.frameSize
  {
    hide CoreInv, CacheInv, Asked, CanAsk, Mapped, Source;
    var p := st.geo.frameSize;
    && CanAsk(st, s, pid, page)
    && (off + length > p ==>
          && CanAsk(st, s, pid, page + 1)
          && (AskedIs(st, s, pid, page, off, p - off, page + 1);
              Reaches(st, Asked(st, s, pid, page, off, p - off).0, pid, page + 1, 0, off + length - p)))
  }

  /** The two parts of a fetch, as strings, one after the other. */
  ghost function FetchedAt(st: Settings, s: State, pid: int, page: nat, off: nat, length: nat): (State, Option<seq<Byte>>)
    requires Inv(st, s) && pid >= 1 && off < st.geo.frameSize && CanFetchAt(st, s, pid, page, off, length)
  {
    hide CoreInv, CacheInv, Asked, CanAsk, Mapped, Source;
    var p := st.geo.frameSize;
    if off + length <= p then Asked(st, s, pid, page, off, length)
    else
      AskedIs(st, s, pid, page, off, p - off, page + 1);
      var (t, a) := Asked(st, s, pid, page, off, p - off);
      if a.None? then (t, None)
      else
        var (u, b) := Asked(st, t, pid, page + 1, 0, off + length - p);
        (u, if b.None? then None else Some(a.value + b.value))
  }

  /** When it ends within the next page, cache and memory cannot be told apart. */
  lemma FetchedAtWithin(st: Settings, s: State, pid: int, page: nat, off: nat, length: nat)
    requires Inv(st, s) && pid >= 1 && off < st.geo.frameSize && CanFetchAt(st, s, pid, page, off, length)
    requires off + length <= 2 * st.geo.frameSize
    ensures var p, c := st.geo.frameSize, s.core;
      FetchedAt(st, s, pid, page, off, length).1
      == if !Mapped(c, pid, page) then None
         else if off + length <= p then Some(CString(PageBytes(st.geo, c, pid, page)[off..off + length]))
         else if !Mapped(c, pid, page + 1) then None
         else Some(CString(PageBytes(st.geo, c, pid, page)[off..p])
                   + CString(PageBytes(st.geo, c, pid, page + 1)[0..off + length - p]))
  {
    hide CoreInv, CacheInv, PageBytes, FrameOf, CString, Asked, CanAsk, Mapped, Source;
    var p := st.geo.frameSize;
    if off + length <= p {
      AskedIs(st, s, pid, page, off, length, page);
    } else {
      AskedIs(st, s, pid, page, off, p - off, page + 1);
      var (t, a) := Asked(st, s, pid, page, off, p - off);
      AskedIs(st, t, pid, page + 1, 0, off + length - p, page);
      assert a.Some? ==> a.value == CString(PageBytes(st.geo, s.core, pid, page)[off..p]);
      var (u, b) := Asked(st, t, pid, page + 1, 0, off + length - p);
      assert b.Some? ==> b.value == CString(PageBytes(st.geo, s.core, pid, page + 1)[0..off + length - p]);
    }
  }

  function PageOf(start: nat, page: nat): nat
    requires page > 0
  {
    start / page
  }

  function OffsetIn(start: nat, page: nat): (off: nat)
    requires page > 0
    ensures off < page
  {
    start % page
  }

  /** A fetch past the guard on the length can be asked for. */
  ghost predicate CanFetch(st: Settings, s: State, pid: int, start: nat, length: nat)
    requires Inv(st, s) && st.geo.frameSize > 0 && pid >= 1
  {
    hide CoreInv, CacheInv, CanFetchAt, PageOf, OffsetIn;
    length <= 2 * st.geo.frameSize ==>
      CanFetchAt(st, s, pid, PageOf(start, st.geo.frameSize), OffsetIn(start, st.geo.frameSize), length)
  }

  /** obtener_instruccion through the cache, up to its cut at the newline. */
  ghost function FetchedRaw(st: Settings, s: State, pid: int, start: nat, length: nat): (State, Option<seq<Byte>>)
    requires Inv(st, s) && st.geo.frameSize > 0 && pid >= 1 && CanFetch(st, s, pid, start, length)
  {
    hide CoreInv, CacheInv, CanFetchAt, FetchedAt, PageOf, OffsetIn;
    if length > 2 * st.geo.frameSize then (s, None)
    else FetchedAt(st, s, pid, PageOf(start, st.geo.frameSize), OffsetIn(start, st.geo.frameSize), length)
  }

  /** direccionInvalida: longer than two pages, or a page that it needs does not exist. */
  ghost predicate BadFetch(g: Geometry, c: Core, pid: int, start: nat, length: nat)
    requires g.frameSize > 0
  {
    || length > 2 * g.frameSize
    || !Mapped(c, pid, start / g.frameSize)
    || (start % g.frameSize + length > g.frameSize && !Mapped(c, pid, start / g.frameSize + 1))
  }

  lemma FetchFailsIff(st: Settings, s: State, pid: int, start: nat, length: nat)
    requires Inv(st, s) && st.geo.frameSize > 0 && pid >= 1 && CanFetch(st, s, pid, start, length)
    ensures FetchedRaw(st, s, pid, start, length).1.None? <==> BadFetch(st.geo, s.core, pid, start, length)
  {
    hide CoreInv, CacheInv, PageBytes, FrameOf, CString, Asked, CanAsk, Mapped, Source;
    if length <= 2 * st.geo.frameSize {
      AtFails(st, s, pid, PageOf(start, st.geo.frameSize), OffsetIn(start, st.geo.frameSize), length);
    }
  }

  lemma AtFails(st: Settings, s: State, pid: int, page: nat, off: nat, length: nat)
    requires Inv(st, s) && pid >= 1 && off < st.geo.frameSize && CanFetchAt(st, s, pid, page, off, length)
    ensures FetchedAt(st, s, pid, page, off, length).1.None?
       <==> !Mapped(s.core, pid, page) || (off + length > st.geo.frameSize && !Mapped(s.core, pid, page + 1))
  {
    hide CoreInv, CacheInv, PageBytes, FrameOf, CString, Asked, CanAsk, Mapped, Source;
    var p := st.geo.frameSize;
    if off + length <= p {
      AskedIs(st, s, pid, page, off, length, page);
    } else {
      AskedIs(st, s, pid, page, off, p - off, page + 1);
      var (t, a) := Asked(st, s, pid, page, off, p - off);
      AskedIs(st, t, pid, page + 1, 0, off + length - p, page);
      assert Asked(st, t, pid, page + 1, 0, off + length - p).1.Some? <==> Mapped(s.core, pid, page + 1);
    }
  }

  /** obtener_instruccion. */
  method Fetch(m: Memory, pid: int, start: nat, length: nat) returns (r: Option<seq<Byte>>)
    requires m.Valid() && pid >= 1 && CanFetch(m.st, m.Now(), pid, start, length)
    modifies m, m.cache, m.uses
    ensures m.Valid() && m.CoreNow() == old(m.CoreNow())
    ensures (m.Now(), r) == FetchedRaw(m.st, old(m.Now()), pid, start, length)
    ensures (length <= 2 * m.st.geo.frameSize ==>
               start % m.st.geo.frameSize + length <= 2 * m.st.geo.frameSize) ==>
              r == Fetched(m.st.geo, old(m.CoreNow()), pid, start, length)
    ensures r.None? <==> BadFetch(m.st.geo, old(m.CoreNow()), pid, start, length)
  {
    FetchFailsIff(m.st, m.Now(), pid, start, length);
    hide CoreInv, CacheInv, CoreOf, BadFetch, Fetched, FetchedRaw, CanFetch;
    r := FetchParts(m, pid, start, length);
  }

  /** One read, or two put together. */
  method FetchParts(m: Memory, pid: int, start: nat, length: nat) returns (r: Option<seq<Byte>>)
    requires m.Valid() && pid >= 1 && CanFetch(m.st, m.Now(), pid, start, length)
    modifies m, m.cache, m.uses
    ensures m.Valid() && m.CoreNow() == old(m.CoreNow())
    ensures (m.Now(), r) == FetchedRaw(m.st, old(m.Now()), pid, start, length)
    ensures (length <= 2 * m.st.geo.frameSize ==>
               start % m.st.geo.frameSize + length <= 2 * m.st.geo.frameSize) ==>
              r == Fetched(m.st.geo, old(m.CoreNow()), pid, start, length)
  {
    hide CoreInv, CacheInv, CoreOf, FrameOf, PageBytes, SlotCount, CString, CanAsk, Mapped, Asked, Source;
    var p := m.st.geo.frameSize;
    var page := start / p;
    var off := start - page * p;
    assert off == start % p;
    if length > p * 2 {
      return None;
    }
    if off + length <= 2 * p {
      FetchedAtWithin(m.st, m.Now(), pid, page, off, length);
    }
    AskedIs(m.st, m.Now(), pid, page, off, if off + length <= p then length else p - off, page + 1);
    if off + length < p {
      r := AskMemory(m, pid, page, off, length);
      return;
    }
    var first := p - off;
    r := AskMemory(m, pid, page, off, first);
    if r.None? {
      return;
    }
    if length - first > 0 {
      var more := AskMemory(m, pid, page + 1, 0, length - first);
      if more.None? {
        return None;
      }
      r := Some(r.value + more.value);
    }
  }

  /** A stretch of a code page is that stretch of the program. */
  lemma PieceInPage(g: Geometry, c: Core, pid: int, program: seq<Byte>, k: nat, at: nat, lo: nat, hi: nat)
    requires CoreInv(g, c) && GeometryOk(g) && pid >= 1 && Stored(g, c, pid, program) && NulFree(program)
    requires at == k * g.frameSize < |program| && lo <= hi <= g.frameSize && at + hi <= |program|
    ensures Mapped(c, pid, k)
    ensures PageBytes(g, c, pid, k)[lo..hi] == program[at + lo..at + hi]
    ensures NulFree(PageBytes(g, c, pid, k)[lo..hi])
  {
    hide CoreInv, PageBytes, FrameOf, StrNCpy, CodePages, Chunk, NulFree;
    CodePagesCover(|program|, g.frameSize, k);
    var b := Chunk(program, g.frameSize, k);
    ChunkPiece(program, g.frameSize, k, at, lo, hi);
    NulFreeString(b);
    assert b <= PageBytes(g, c, pid, k);
    assert b[lo..hi] == PageBytes(g, c, pid, k)[lo..hi];
  }

  lemma Stretch(b: seq<Byte>, lo: nat, hi: nat)
    requires NulFree(b) && lo <= hi <= |b|
    ensures NulFree(b[lo..hi])
  {
  }

  lemma ChunkPiece(program: seq<Byte>, page: nat, k: nat, at: nat, lo: nat, hi: nat)
    requires at == k * page <= |program| && lo <= hi <= page && at + hi <= |program|
    ensures hi <= |Chunk(program, page, k)|
    ensures Chunk(program, page, k)[lo..hi] == program[at + lo..at + hi]
    ensures NulFree(program) ==> NulFree(Chunk(program, page, k)) && NulFree(Chunk(program, page, k)[lo..hi])
  {
    var b := Chunk(program, page, k);
    var z := if |program| - at < page then |program| else at + page;
    assert b == program[at..z];
    Within(program, at, z, lo, hi);
    if NulFree(program) {
      Stretch(program, at, z);
      Stretch(b, lo, hi);
    }
  }

  /** Fetching any stretch of a stored NUL-free program that spans two pages at most gives
      exactly that stretch, also when it ends on a page boundary. */
  lemma FetchesProgram(g: Geometry, c: Core, pid: int, program: seq<Byte>, start: nat, length: nat)
    requires CoreInv(g, c) && GeometryOk(g) && pid >= 1 && Stored(g, c, pid, program) && NulFree(program)
    requires start < |program| && start + length <= |program|
    requires length <= 2 * g.frameSize ==> start % g.frameSize + length <= 2 * g.frameSize
    ensures Fetched(g, c, pid, start, length)
         == if length > 2 * g.frameSize then None else Some(program[start..start + length])
  {
    hide CoreInv, PageBytes, FrameOf, Stored, CString, NulFree, Mapped;
    var k, off := start / g.frameSize, start % g.frameSize;
    assert start == k * g.frameSize + off;
    if length > 2 * g.frameSize {
    } else if off + length <= g.frameSize {
      PieceInPage(g, c, pid, program, k, start - off, off, off + length);
      NulFreeString(PageBytes(g, c, pid, k)[off..off + length]);
    } else {
      TwoPieces(g, c, pid, program, k, start - off, off, off + length - g.frameSize);
    }
  }

  lemma TwoPieces(g: Geometry, c: Core, pid: int, program: seq<Byte>, k: nat, at: nat, off: nat, n: nat)
    requires CoreInv(g, c) && GeometryOk(g) && pid >= 1 && Stored(g, c, pid, program) && NulFree(program)
    requires at == k * g.frameSize && off < g.frameSize && 0 < n <= g.frameSize
    requires at + g.frameSize + n <= |program|
    ensures Mapped(c, pid, k) && Mapped(c, pid, k + 1)
    ensures CString(PageBytes(g, c, pid, k)[off..g.frameSize]) + CString(PageBytes(g, c, pid, k + 1)[0..n])
         == program[at + off..at + g.frameSize + n]
  {
    hide CoreInv, PageBytes, FrameOf, Stored, CString, NulFree, Mapped;
    var p := g.frameSize;
    TimesStep(p, k);
    PieceInPage(g, c, pid, program, k, at, off, p);
    PieceInPage(g, c, pid, program, k + 1, at + p, 0, n);
    NulFreeString(PageBytes(g, c, pid, k)[off..p]);
    NulFreeString(PageBytes(g, c, pid, k + 1)[0..n]);
    Joins(program, at + off, at + p, at + p + n);
  }

  // ----- the code stays -----

  /** A request that neither ends the process nor writes to its code. */
  predicate SparesCode(rq: Request, pid: int, codePages: nat) {
    match rq
    case RqWrite(q, page, _, _) => q != pid || page >= codePages
    case RqFinish(q) => q != pid
    case _ => true
  }

  lemma StepSparesCode(st: Settings, c: Core, rq: Request, pid: int, program: seq<Byte>)
    requires CoreInv(st.geo, c) && GeometryOk(st.geo) && pid >= 1 && Shaped(st, rq)
    requires Stored(st.geo, c, pid, program) && SparesCode(rq, pid, CodePages(|program|, st.geo.frameSize))
    ensures CoreInv(st.geo, PlainStep(st, c, rq).0)
    ensures Stored(st.geo, PlainStep(st, c, rq).0, pid, program)
  {
    hide CoreInv, PageBytes, FrameOf, CoreWrite, CoreAssign, CoreFinish, CodePages, StrNCpy, Chunk;
    match rq
    case RqAssign(q, n) => CoreAssignCorrect(st.geo, c, q, n);
    case RqWrite(q, page, off, d) =>
      CoreWriteCorrect(st.geo, c, q, page, off, d);
      var e := CoreWrite(st.geo, c, q, page, off, d).0;
      forall k: nat | k < CodePages(|program|, st.geo.frameSize) && k * st.geo.frameSize <= |program|
        ensures Mapped(e, pid, k) && PageBytes(st.geo, e, pid, k) == PageBytes(st.geo, c, pid, k)
      {
        assert Mapped(c, pid, k);
      }
    case RqFinish(q) => CoreFinishCorrect(st.geo, c, q);
    case RqRead(_, _, _, _) =>
    case RqFlush =>
  }

  /** Through any run of memory requests, of this process and others, that never ends it
      nor writes to its code pages, the program stays stored. */
  lemma {:induction false} CodeSurvives(st: Settings, s: State, rqs: seq<Request>, pid: int, program: seq<Byte>)
    requires Inv(st, s) && Legal(st, s, rqs) && GeometryOk(st.geo) && pid >= 1
    requires Stored(st.geo, s.core, pid, program)
    requires forall i :: 0 <= i < |rqs| ==> SparesCode(rqs[i], pid, CodePages(|program|, st.geo.frameSize))
    ensures Stored(st.geo, Run(st, s, rqs).0.core, pid, program)
    decreases |rqs|
  {
    hide CoreInv, CacheInv, Stored, PlainStep, Step, CodePages, SparesCode;
    if rqs != [] {
      StepTransparent(st, s, rqs[0]);
      StepSparesCode(st, s.core, rqs[0], pid, program);
      CodeSurvives(st, Step(st, s, rqs[0]).0, rqs[1..], pid, program);
    }
  }
}
