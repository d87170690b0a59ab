/** What the instruction fetch reads when its second part does not fit in the next page,
    which the guard on the length alone does not prevent. */
module ProgramOverrun {
  import opened Bytes
  import opened MemoryTable
  import opened MemorySpec
  import opened MemoryTheorems
  import opened Pcb
  import opened ProgramImage

  /** The memcpy of solicitarBytesPagina, whatever its size. */
  ghost function RawRead(g: Geometry, m: seq<Byte>, f: nat, off: nat, size: nat): (b: seq<Byte>)
    requires f * g.frameSize + off + size <= |m|
    ensures |b| == size
  {
    m[f * g.frameSize + off..f * g.frameSize + off + size]
  }

  /** What it copies: the page and, past its end, the frame that happens to lie behind. */
  lemma RawReadIs(g: Geometry, m: seq<Byte>, f: nat, off: nat, size: nat)
    requires GeometryOk(g) && |m| == g.frames * g.frameSize && off <= g.frameSize
    requires f < g.frames && off + size <= 2 * g.frameSize
    requires off + size > g.frameSize ==> f + 1 < g.frames
    ensures f * g.frameSize + off + size <= |m|
    ensures RawRead(g, m, f, off, size)
         == if off + size <= g.frameSize then FrameAt(g, m, f)[off..off + size]
            else FrameAt(g, m, f)[off..] + FrameAt(g, m, f + 1)[..off + size - g.frameSize]
  {
    FrameFits(g, f);
    if off + size > g.frameSize {
      FrameFits(g, f + 1);
      TimesStep(g.frameSize, f);
    }
    TwoStretches(m, f * g.frameSize, g.frameSize, off, size);
  }

  lemma TwoStretches(m: seq<Byte>, a: nat, p: nat, off: nat, size: nat)
    requires off <= p && off + size <= 2 * p && a + p <= |m| && a + off + size <= |m|
    ensures off + size <= p ==> m[a + off..a + off + size] == m[a..a + p][off..off + size]
    ensures p < off + size && a + p + p <= |m| ==>
              m[a + off..a + off + size] == m[a..a + p][off..] + m[a + p..a + p + p][..off + size - p]
  {
    if off + size <= p {
      Within(m, a, a + p, off, off + size);
    } else if a + p + p <= |m| {
      Within(m, a, a + p, off, p);
      Within(m, a + p, a + p + p, 0, off + size - p);
      Joins(m, a + off, a + p, a + off + size);
    }
  }

  /** A read depends on the frame it names alone iff it ends within that frame. */
  lemma RawReadStaysIff(g: Geometry, m: seq<Byte>, f: nat, off: nat, size: nat)
    requires GeometryOk(g) && |m| == g.frames * g.frameSize && off <= g.frameSize
    requires f < g.frames && off + size <= 2 * g.frameSize
    requires off + size > g.frameSize ==> f + 1 < g.frames
    ensures f * g.frameSize + off + size <= |m|
    ensures (forall n: seq<Byte> :: |n| == |m| && FrameAt(g, n, f) == FrameAt(g, m, f) ==>
               RawRead(g, n, f, off, size) == RawRead(g, m, f, off, size))
       <==> off + size <= g.frameSize
  {
    hide FrameAt, RawRead;
    RawReadIs(g, m, f, off, size);
    if off + size <= g.frameSize {
      forall n: seq<Byte> | |n| == |m| && FrameAt(g, n, f) == FrameAt(g, m, f)
        ensures RawRead(g, n, f, off, size) == RawRead(g, m, f, off, size)
      {
        RawReadIs(g, n, f, off, size);
      }
    } else {
      var n, x := OtherByte(g, m, f + 1, 0);
      RawReadIs(g, n, f, off, size);
      assert (FrameAt(g, n, f)[off..] + FrameAt(g, n, f + 1)[..off + size - g.frameSize])[g.frameSize - off]
          == FrameAt(g, n, f + 1)[0];
      assert (FrameAt(g, m, f)[off..] + FrameAt(g, m, f + 1)[..off + size - g.frameSize])[g.frameSize - off]
          == FrameAt(g, m, f + 1)[0];
    }
  }

  /** A memory that differs in byte o of frame h only. */
  lemma OtherByte(g: Geometry, m: seq<Byte>, h: nat, o: nat) returns (n: seq<Byte>, x: Byte)
    requires GeometryOk(g) && |m| == g.frames * g.frameSize && h < g.frames && o < g.frameSize
    ensures h * g.frameSize + o + 1 <= |m| && n == Paste(m, h * g.frameSize + o, [x])
    ensures x != FrameAt(g, m, h)[o] && FrameAt(g, n, h) == FrameAt(g, m, h)[o := x]
    ensures forall f :: 0 <= f < g.frames && f != h ==> FrameAt(g, n, f) == FrameAt(g, m, f)
  {
    hide FrameAt;
    FrameFits(g, h);
    x := if FrameAt(g, m, h)[o] == 0 then 1 else 0;
    var at := h * g.frameSize + o;
    n := Paste(m, at, [x]);
    WrittenFrame(g, m, h, o, [x]);
    assert Paste(FrameAt(g, m, h), o, [x]) == FrameAt(g, m, h)[o := x];
    forall f | 0 <= f < g.frames && f != h
      ensures FrameAt(g, n, f) == FrameAt(g, m, f)
    {
      FramesApart(g, h, f);
      FrameUntouched(g, m, at, [x], f);
    }
  }

  /** obtener_instruccion on a server whose cache does not hold the pages, the second read
      as large as the code makes it. */
  ghost function RawFetched(g: Geometry, m: seq<Byte>, pid: int, start: nat, length: nat): Option<seq<Byte>>
    requires GeometryOk(g) && |m| == g.frames * g.frameSize && CoreInv(g, CoreOf(g, m)) && pid >= 1
    requires SecondReadInMemory(g, m, pid, start, length)
  {
    var t := CoreOf(g, m).table;
    var page, off := start / g.frameSize, start % g.frameSize;
    var f1, f2 := FrameOf(t, pid, page), FrameOf(t, pid, page + 1);
    if length > 2 * g.frameSize || f1 < 0 then None
    else if off + length <= g.frameSize then
      RawReadIs(g, m, f1, off, length);
      Some(CString(RawRead(g, m, f1, off, length)))
    else if f2 < 0 then None
    else
      RawReadIs(g, m, f1, off, g.frameSize - off);
      RawReadIs(g, m, f2, 0, length - (g.frameSize - off));
      Some(CString(RawRead(g, m, f1, off, g.frameSize - off))
           + CString(RawRead(g, m, f2, 0, length - (g.frameSize - off))))
  }

  /** The second read does not run off the end of the server's memory. */
  ghost predicate SecondReadInMemory(g: Geometry, m: seq<Byte>, pid: int, start: nat, length: nat)
    requires GeometryOk(g) && |m| == g.frames * g.frameSize
  {
    start % g.frameSize + length > 2 * g.frameSize && length <= 2 * g.frameSize ==>
      FrameOf(CoreOf(g, m).table, pid, start / g.frameSize + 1) + 1 < g.frames
  }

  /** An instruction of a stored NUL-free program that the length guard lets through is
      fetched exactly iff it ends within the next page, or the frame that lies behind that
      page happens to hold the rest of it. */
  lemma FetchExactIff(g: Geometry, m: seq<Byte>, pid: int, program: seq<Byte>, start: nat, length: nat)
    requires GeometryOk(g) && |m| == g.frames * g.frameSize && CoreInv(g, CoreOf(g, m)) && pid >= 1
    requires Stored(g, CoreOf(g, m), pid, program) && NulFree(program)
    requires start < |program| && start + length <= |program| && length <= 2 * g.frameSize
    requires SecondReadInMemory(g, m, pid, start, length)
    ensures var end, f := start % g.frameSize + length, FrameOf(CoreOf(g, m).table, pid, start / g.frameSize + 1);
      RawFetched(g, m, pid, start, length) == Some(program[start..start + length])
      <==> end <= 2 * g.frameSize
           || (0 <= f && f + 1 < g.frames
               && FrameAt(g, m, f + 1)[..end - 2 * g.frameSize]
                  == program[start + length - (end - 2 * g.frameSize)..start + length])
  {
    hide CoreInv, CoreOf, FrameOf, Stored, CString, NulFree, FrameAt, RawFetched;
    if start % g.frameSize + length <= 2 * g.frameSize {
      FetchWithin(g, m, pid, program, start, length, start / g.frameSize, start - start % g.frameSize);
    } else {
      FetchPast(g, m, pid, program, start, length, start / g.frameSize, start - start % g.frameSize);
    }
  }

  lemma FetchWithin(g: Geometry, m: seq<Byte>, pid: int, program: seq<Byte>, start: nat, length: nat, k: nat, at: nat)
    requires GeometryOk(g) && |m| == g.frames * g.frameSize && CoreInv(g, CoreOf(g, m)) && pid >= 1
    requires Stored(g, CoreOf(g, m), pid, program) && NulFree(program)
    requires start < |program| && start + length <= |program| && length <= 2 * g.frameSize
    requires k == start / g.frameSize && at == start - start % g.frameSize
    requires start % g.frameSize + length <= 2 * g.frameSize
    ensures SecondReadInMemory(g, m, pid, start, length)
    ensures RawFetched(g, m, pid, start, length) == Some(program[start..start + length])
  {
    hide CoreInv, CoreOf, FrameOf, Stored, CString, NulFree, FrameAt, RawFetched;
    if start % g.frameSize + length <= g.frameSize {
      FetchInOne(g, m, pid, program, start, length, k, at);
    } else {
      FetchInTwo(g, m, pid, program, start, length, k, at);
    }
  }

  lemma PageStart(start: nat, p: nat)
    requires p > 0
    ensures start - start % p == (start / p) * p
  {
  }

  lemma FetchInOne(g: Geometry, m: seq<Byte>, pid: int, program: seq<Byte>, start: nat, length: nat, k: nat, at: nat)
    requires GeometryOk(g) && |m| == g.frames * g.frameSize && CoreInv(g, CoreOf(g, m)) && pid >= 1
    requires Stored(g, CoreOf(g, m), pid, program) && NulFree(program)
    requires start < |program| && start + length <= |program| && length <= 2 * g.frameSize
    requires k == start / g.frameSize && at == start - start % g.frameSize
    requires start % g.frameSize + length <= g.frameSize
    ensures SecondReadInMemory(g, m, pid, start, length)
    ensures RawFetched(g, m, pid, start, length) == Some(program[start..start + length])
  {
    hide CoreInv, CoreOf, FrameOf, Stored, CString, NulFree, FrameAt, RawFetched;
    var p, off := g.frameSize, start - at;
    PageStart(start, p);
    FrameHolds(g, m, pid, program, k, at, off, off + length);
    RawOne(g, m, pid, start, length, k, off);
  }

  lemma FetchInTwo(g: Geometry, m: seq<Byte>, pid: int, program: seq<Byte>, start: nat, length: nat, k: nat, at: nat)
    requires GeometryOk(g) && |m| == g.frames * g.frameSize && CoreInv(g, CoreOf(g, m)) && pid >= 1
    requires Stored(g, CoreOf(g, m), pid, program) && NulFree(program)
    requires start < |program| && start + length <= |program| && length <= 2 * g.frameSize
    requires k == start / g.frameSize && at == start - start % g.frameSize
    requires g.frameSize < start % g.frameSize + length <= 2 * g.frameSize
    ensures SecondReadInMemory(g, m, pid, start, length)
    ensures RawFetched(g, m, pid, start, length) == Some(program[start..start + length])
  {
    hide CoreInv, CoreOf, FrameOf, Stored, CString, NulFree, FrameAt, RawFetched;
    var p, off := g.frameSize, start - at;
    PageStart(start, p);
    TimesStep(p, k);
    FrameHolds(g, m, pid, program, k, at, off, p);
    FrameHolds(g, m, pid, program, k + 1, at + p, 0, off + length - p);
    RawTwo(g, m, pid, start, length, k, off);
    Joins(program, start, at + p, start + length);
  }

  lemma FetchPast(g: Geometry, m: seq<Byte>, pid: int, program: seq<Byte>, start: nat, length: nat, k: nat, at: nat)
    requires GeometryOk(g) && |m| == g.frames * g.frameSize && CoreInv(g, CoreOf(g, m)) && pid >= 1
    requires Stored(g, CoreOf(g, m), pid, program) && NulFree(program)
    requires start < |program| && start + length <= |program| && length <= 2 * g.frameSize
    requires k == start / g.frameSize && at == start - start % g.frameSize
    requires start % g.frameSize + length > 2 * g.frameSize
    requires SecondReadInMemory(g, m, pid, start, length)
    ensures var f, past := FrameOf(CoreOf(g, m).table, pid, k + 1), start % g.frameSize + length - 2 * g.frameSize;
      && 0 <= f && f + 1 < g.frames
      && (RawFetched(g, m, pid, start, length) == Some(program[start..start + length])
          <==> FrameAt(g, m, f + 1)[..past] == program[start + length - past..start + length])
  {
    hide CoreInv, CoreOf, FrameOf, Stored, CString, NulFree, FrameAt, RawFetched;
    var p, off, t := g.frameSize, start - at, CoreOf(g, m).table;
    PageStart(start, p);
    TimesStep(p, k);
    FrameHolds(g, m, pid, program, k, at, off, p);
    FrameHolds(g, m, pid, program, k + 1, at + p, 0, p);
    RawTwo(g, m, pid, start, length, k, off);
    var x, y := FrameAt(g, m, FrameOf(t, pid, k))[off..p], FrameAt(g, m, FrameOf(t, pid, k + 1));
    assert y[0..p] == y;
    TailDecides(program, start, start + length, at + p, x, y,
                FrameAt(g, m, FrameOf(t, pid, k + 1) + 1)[..off + length - 2 * p]);
  }

  /** A stretch of the frame of a code page is that stretch of the program, as a string
      too. */
  lemma FrameHolds(g: Geometry, m: seq<Byte>, pid: int, program: seq<Byte>, k: nat, at: nat, lo: nat, hi: nat)
    requires GeometryOk(g) && |m| == g.frames * g.frameSize && CoreInv(g, CoreOf(g, m)) && pid >= 1
    requires Stored(g, CoreOf(g, m), pid, program) && NulFree(program)
    requires at == k * g.frameSize < |program| && lo <= hi <= g.frameSize && at + hi <= |program|
    ensures 0 <= FrameOf(CoreOf(g, m).table, pid, k) < g.frames
    ensures FrameAt(g, m, FrameOf(CoreOf(g, m).table, pid, k))[lo..hi] == program[at + lo..at + hi]
    ensures CString(FrameAt(g, m, FrameOf(CoreOf(g, m).table, pid, k))[lo..hi]) == program[at + lo..at + hi]
  {
    hide CoreInv, CoreOf, PageBytes, FrameOf, Stored, CString, NulFree, FrameAt, Mapped;
    PieceInPage(g, CoreOf(g, m), pid, program, k, at, lo, hi);
    PageIsFrame(g, m, pid, k);
    NulFreeString(PageBytes(g, CoreOf(g, m), pid, k)[lo..hi]);
  }

  lemma RawOne(g: Geometry, m: seq<Byte>, pid: int, start: nat, length: nat, k: nat, off: nat)
    requires GeometryOk(g) && |m| == g.frames * g.frameSize && CoreInv(g, CoreOf(g, m)) && pid >= 1
    requires k == start / g.frameSize && off == start % g.frameSize && off + length <= g.frameSize
    requires 0 <= FrameOf(CoreOf(g, m).table, pid, k) < g.frames
    ensures SecondReadInMemory(g, m, pid, start, length)
    ensures RawFetched(g, m, pid, start, length)
         == Some(CString(FrameAt(g, m, FrameOf(CoreOf(g, m).table, pid, k))[off..off + length]))
  {
    hide CoreInv, CoreOf, FrameOf, FrameAt, CString, RawRead;
    RawReadIs(g, m, FrameOf(CoreOf(g, m).table, pid, k), off, length);
  }

  lemma RawTwo(g: Geometry, m: seq<Byte>, pid: int, start: nat, length: nat, k: nat, off: nat)
    requires GeometryOk(g) && |m| == g.frames * g.frameSize && CoreInv(g, CoreOf(g, m)) && pid >= 1
    requires k == start / g.frameSize && off == start % g.frameSize
    requires length <= 2 * g.frameSize && off + length > g.frameSize
    requires SecondReadInMemory(g, m, pid, start, length)
    requires 0 <= FrameOf(CoreOf(g, m).table, pid, k) < g.frames
    requires 0 <= FrameOf(CoreOf(g, m).table, pid, k + 1) < g.frames
    ensures var p, t := g.frameSize, CoreOf(g, m).table;
      var f1, f2 := FrameOf(t, pid, k), FrameOf(t, pid, k + 1);
      RawFetched(g, m, pid, start, length)
      == Some(CString(FrameAt(g, m, f1)[off..p])
              + CString(if off + length <= 2 * p then FrameAt(g, m, f2)[0..off + length - p]
                        else FrameAt(g, m, f2) + FrameAt(g, m, f2 + 1)[..off + length - 2 * p]))
  {
    hide CoreInv, CoreOf, FrameOf, FrameAt, CString, RawRead;
    var p, t := g.frameSize, CoreOf(g, m).table;
    var f1, f2 := FrameOf(t, pid, k), FrameOf(t, pid, k + 1);
    RawReadIs(g, m, f1, off, p - off);
    RawReadIs(g, m, f2, 0, length - (p - off));
    assert FrameAt(g, m, f2)[0..] == FrameAt(g, m, f2);
  }

  lemma PageIsFrame(g: Geometry, m: seq<Byte>, pid: int, page: nat)
    requires GeometryOk(g) && |m| == g.frames * g.frameSize && CoreInv(g, CoreOf(g, m)) && pid >= 1
    requires Mapped(CoreOf(g, m), pid, page)
    ensures 0 <= FrameOf(CoreOf(g, m).table, pid, page) < g.frames
    ensures PageBytes(g, CoreOf(g, m), pid, page) == FrameAt(g, m, FrameOf(CoreOf(g, m).table, pid, page))
  {
    hide FrameOf, Count, TableFrames, TableOf;
    FrameAfterTable(g, CoreOf(g, m).table, pid, page);
  }

  /** Two NUL-free pieces and a tail spell a stretch of a NUL-free program iff the tail is
      the end of that stretch. */
  lemma TailDecides(program: seq<Byte>, lo: nat, hi: nat, mid: nat, x: seq<Byte>, y: seq<Byte>, z: seq<Byte>)
    requires NulFree(program) && lo <= mid <= mid + |y| <= hi <= |program|
    requires x == program[lo..mid] && y == program[mid..mid + |y|] && |z| == hi - mid - |y|
    ensures CString(x) == x
    ensures x + CString(y + z) == program[lo..hi] <==> z == program[hi - |z|..hi]
  {
    var w := program[hi - |z|..hi];
    Stretch(program, lo, mid);
    Stretch(program, mid, mid + |y|);
    Stretch(program, hi - |z|, hi);
    NulFreeString(x);
    StringPast(y, z);
    assert program[lo..hi] == x + (y + w);
    NulFreeString(w);
    if x + CString(y + z) == program[lo..hi] {
      assert x + (y + CString(z)) == x + (y + w);
      Cancel(x, y + CString(z), y + w);
      Cancel(y, CString(z), w);
    }
  }

  lemma Cancel(a: seq<Byte>, b: seq<Byte>, c: seq<Byte>)
    requires a + b == a + c
    ensures b == c
  {
    assert b == (a + b)[|a|..] && c == (a + c)[|a|..];
  }

  lemma {:induction false} StringPast(y: seq<Byte>, z: seq<Byte>)
    requires NulFree(y)
    ensures CString(y + z) == y + CString(z)
  {
    if y == [] {
      assert y + z == z;
    } else {
      StringPast(y[1..], z);
      assert (y + z)[1..] == y[1..] + z;
    }
  }

  /** What is written in a frame behind all that a program has in it leaves the program as
      it is stored. */
  lemma LooseFrame(g: Geometry, c: Core, e: Core, pid: int, program: seq<Byte>, h: nat, o: nat, b: seq<Byte>)
    requires CoreInv(g, c) && GeometryOk(g) && pid >= 1 && Stored(g, c, pid, program)
    requires TableFrames(g) <= h < g.frames && |b| == g.frameSize && o <= g.frameSize
    requires e == c.(data := c.data[h - TableFrames(g) := b]) && b[..o] == c.data[h - TableFrames(g)][..o]
    requires forall k: nat :: FrameOf(c.table, pid, k) == h ==> |program| <= k * g.frameSize + o
    ensures CoreInv(g, e) && Stored(g, e, pid, program)
    ensures forall k :: Mapped(c, pid, k) && FrameOf(c.table, pid, k) != h ==>
              PageBytes(g, e, pid, k) == PageBytes(g, c, pid, k)
  {
    hide Count, FrameOf, TableFrames, StrNCpy, Chunk, CodePages;
    forall k | Mapped(c, pid, k) && FrameOf(c.table, pid, k) != h
      ensures PageBytes(g, e, pid, k) == PageBytes(g, c, pid, k)
    {
      FrameAfterTable(g, c.table, pid, k);
    }
    forall k: nat | k < CodePages(|program|, g.frameSize) && k * g.frameSize <= |program|
      ensures Mapped(e, pid, k) && StrNCpy(Chunk(program, g.frameSize, k)) <= PageBytes(g, e, pid, k)
    {
      assert Mapped(c, pid, k);
      FrameAfterTable(g, c.table, pid, k);
      if FrameOf(c.table, pid, k) == h {
        var d := StrNCpy(Chunk(program, g.frameSize, k));
        assert |d| <= o by { ChunkWithin(program, g.frameSize, k, o); }
        assert d == PageBytes(g, c, pid, k)[..|d|] == b[..o][..|d|];
      }
    }
  }

  lemma ChunkWithin(program: seq<Byte>, page: nat, k: nat, o: nat)
    requires k * page <= |program| <= k * page + o
    ensures |Chunk(program, page, k)| <= o
  {
  }

  /** One byte of a frame, in the bytes of memory and in what they hold. */
  lemma OneByte(g: Geometry, m: seq<Byte>, h: nat, o: nat, x: Byte)
    requires GeometryOk(g) && |m| == g.frames * g.frameSize && TableFrames(g) <= h < g.frames && o < g.frameSize
    ensures h * g.frameSize + o + 1 <= |m|
    ensures CoreOf(g, Paste(m, h * g.frameSize + o, [x]))
         == CoreOf(g, m).(data := CoreOf(g, m).data[h - TableFrames(g) := Paste(FrameAt(g, m, h), o, [x])])
    ensures CoreOf(g, m).data[h - TableFrames(g)] == FrameAt(g, m, h)
    ensures Paste(FrameAt(g, m, h), o, [x])[..o] == FrameAt(g, m, h)[..o]
  {
    hide TableFrames, TableOf, FrameAt;
    WriteData(g, m, h, o, [x]);
  }

  lemma BeyondTable(g: Geometry, c: Core, pid: int, page: int)
    requires CoreInv(g, c) && pid >= 1 && FrameOf(c.table, pid, page) >= 0
    ensures FrameOf(c.table, pid, page) >= TableFrames(g) && |c.data| == g.frames - TableFrames(g)
  {
    FrameAfterTable(g, c.table, pid, page);
  }

  /** The memories that differ from m by what processes may have written in it since, with
      the program left as it is stored. */
  ghost predicate Alike(g: Geometry, m: seq<Byte>, n: seq<Byte>, pid: int, program: seq<Byte>)
    requires GeometryOk(g) && |m| == g.frames * g.frameSize && pid >= 1
  {
    && |n| == |m|
    && CoreOf(g, n).table == CoreOf(g, m).table
    && CoreInv(g, CoreOf(g, n))
    && Stored(g, CoreOf(g, n), pid, program)
  }

  lemma ByteLoose(g: Geometry, m: seq<Byte>, n: seq<Byte>, pid: int, program: seq<Byte>, h: nat, o: nat,
                  at: nat, x: Byte)
    requires GeometryOk(g) && |m| == g.frames * g.frameSize && pid >= 1 && Alike(g, m, m, pid, program)
    requires TableFrames(g) <= h < g.frames && o < g.frameSize
    requires at == h * g.frameSize + o && at + 1 <= |m| && n == Paste(m, at, [x])
    requires forall k: nat :: FrameOf(CoreOf(g, m).table, pid, k) == h ==> |program| <= k * g.frameSize + o
    ensures Alike(g, m, n, pid, program)
    ensures forall k :: Mapped(CoreOf(g, m), pid, k) && FrameOf(CoreOf(g, m).table, pid, k) != h ==>
              PageBytes(g, CoreOf(g, n), pid, k) == PageBytes(g, CoreOf(g, m), pid, k)
  {
    hide CoreInv, FrameOf, TableFrames, FrameAt, Paste, Stored, PageBytes, Mapped, TableOf, DataOf;
    OneByte(g, m, h, o, x);
    LooseFrame(g, CoreOf(g, m), CoreOf(g, n), pid, program, h, o, Paste(FrameAt(g, m, h), o, [x]));
  }

  /** There is a memory that differs in such a byte. */
  lemma Spoil(g: Geometry, m: seq<Byte>, pid: int, program: seq<Byte>, h: nat, o: nat) returns (n: seq<Byte>, x: Byte)
    requires GeometryOk(g) && |m| == g.frames * g.frameSize && pid >= 1 && Alike(g, m, m, pid, program)
    requires TableFrames(g) <= h < g.frames && o < g.frameSize
    requires forall k: nat :: FrameOf(CoreOf(g, m).table, pid, k) == h ==> |program| <= k * g.frameSize + o
    ensures Alike(g, m, n, pid, program)
    ensures x != FrameAt(g, m, h)[o] && FrameAt(g, n, h) == FrameAt(g, m, h)[o := x]
    ensures forall k :: Mapped(CoreOf(g, m), pid, k) && FrameOf(CoreOf(g, m).table, pid, k) != h ==>
              PageBytes(g, CoreOf(g, n), pid, k) == PageBytes(g, CoreOf(g, m), pid, k)
  {
    hide Alike, CoreOf, CoreInv, FrameOf, TableFrames, FrameAt, PageBytes, Mapped, Paste;
    n, x := OtherByte(g, m, h, o);
    ByteLoose(g, m, n, pid, program, h, o, h * g.frameSize + o, x);
  }

  /** So it goes wrong: when the frame behind the second page is not one of the process,
      a change of one byte there, by whoever owns it, changes what is fetched, though every
      page of the process is as it was. */
  lemma FetchReadsOtherFrame(g: Geometry, m: seq<Byte>, pid: int, program: seq<Byte>, start: nat, length: nat)
      returns (n: seq<Byte>)
    requires GeometryOk(g) && |m| == g.frames * g.frameSize && CoreInv(g, CoreOf(g, m)) && pid >= 1
    requires Stored(g, CoreOf(g, m), pid, program) && NulFree(program)
    requires start < |program| && start + length <= |program| && length <= 2 * g.frameSize
    requires start % g.frameSize + length > 2 * g.frameSize
    requires SecondReadInMemory(g, m, pid, start, length)
    requires forall page :: FrameOf(CoreOf(g, m).table, pid, page)
                              != FrameOf(CoreOf(g, m).table, pid, start / g.frameSize + 1) + 1
    ensures Alike(g, m, n, pid, program)
    ensures forall page :: Mapped(CoreOf(g, m), pid, page) ==>
              PageBytes(g, CoreOf(g, n), pid, page) == PageBytes(g, CoreOf(g, m), pid, page)
    ensures RawFetched(g, m, pid, start, length) == Some(program[start..start + length]) ==>
              RawFetched(g, n, pid, start, length) != Some(program[start..start + length])
  {
    hide CoreInv, CoreOf, FrameOf, Stored, NulFree, FrameAt, RawFetched, CString, Mapped, PageBytes, Paste;
    var k, at := start / g.frameSize, start - start % g.frameSize;
    FetchPast(g, m, pid, program, start, length, k, at);
    var f := FrameOf(CoreOf(g, m).table, pid, k + 1);
    BeyondTable(g, CoreOf(g, m), pid, k + 1);
    var x;
    n, x := Spoil(g, m, pid, program, f + 1, 0);
    FetchPast(g, n, pid, program, start, length, k, at);
    OneDiffers(FrameAt(g, m, f + 1), 0, x, start % g.frameSize + length - 2 * g.frameSize);
  }

  lemma OneDiffers(a: seq<Byte>, o: nat, x: Byte, k: nat)
    requires o < k <= |a| && a[o] != x
    ensures a[o := x][..k] != a[..k]
  {
    assert a[o := x][..k][o] != a[..k][o];
  }

  // ----- which instructions are fetched exactly whatever memory holds -----

  /** Some page of the process lies in frame h and holds, for good, what the stretch ends
      with: a page of code whose beginning is the same as the end of the stretch. */
  ghost predicate EndIsThere(t: seq<Entry>, pid: int, program: seq<Byte>, p: nat, h: int, from: nat, past: nat)
    requires from + past <= |program|
  {
    exists j: nat :: FrameOf(t, pid, j) == h && j * p + past <= |program|
                     && program[j * p..j * p + past] == program[from..from + past]
  }

  /** An instruction that the length guard lets through is fetched exactly from every memory
      with this page table and program iff it ends within the next page, or the frame behind
      that page is a page of the same program that begins as the instruction ends. */
  lemma AlwaysExactIff(g: Geometry, m: seq<Byte>, pid: int, program: seq<Byte>, start: nat, length: nat)
    requires GeometryOk(g) && |m| == g.frames * g.frameSize && pid >= 1 && Alike(g, m, m, pid, program)
    requires NulFree(program)
    requires start < |program| && start + length <= |program| && length <= 2 * g.frameSize
    requires SecondReadInMemory(g, m, pid, start, length)
    ensures var t, end := CoreOf(g, m).table, start % g.frameSize + length;
      (forall n: seq<Byte> :: Alike(g, m, n, pid, program) ==>
         RawFetched(g, n, pid, start, length) == Some(program[start..start + length]))
      <==> end <= 2 * g.frameSize
           || EndIsThere(t, pid, program, g.frameSize, FrameOf(t, pid, start / g.frameSize + 1) + 1,
                         start + length - (end - 2 * g.frameSize), end - 2 * g.frameSize)
  {
    hide CoreInv, CoreOf, FrameOf, Stored, NulFree, FrameAt, RawFetched, CString, EndIsThere;
    var t, p, end := CoreOf(g, m).table, g.frameSize, start % g.frameSize + length;
    var k, at := start / p, start - start % p;
    if end <= 2 * p {
      forall n: seq<Byte> | Alike(g, m, n, pid, program)
        ensures RawFetched(g, n, pid, start, length) == Some(program[start..start + length])
      {
        FetchWithin(g, n, pid, program, start, length, k, at);
      }
    } else if EndIsThere(t, pid, program, p, FrameOf(t, pid, k + 1) + 1, start + length - (end - 2 * p), end - 2 * p) {
      forall n: seq<Byte> | Alike(g, m, n, pid, program)
        ensures RawFetched(g, n, pid, start, length) == Some(program[start..start + length])
      {
        EndThere(g, n, pid, program, start, length, k, at);
      }
    } else {
      var n := EndNotThere(g, m, pid, program, start, length, k, at);
    }
  }

  /** When no page but the next one can lie behind the second page, the condition can be read
      off the page table: the three pages must lie in a row. */
  lemma InARowIff(t: seq<Entry>, pid: int, program: seq<Byte>, p: nat, start: nat, length: nat)
    requires p > 0 && start + length <= |program| && start % p + length > 2 * p
    requires forall j :: FrameOf(t, pid, j) == FrameOf(t, pid, start / p + 1) + 1 ==> j == start / p + 2
    ensures var h, past := FrameOf(t, pid, start / p + 1) + 1, start % p + length - 2 * p;
      EndIsThere(t, pid, program, p, h, start + length - past, past) <==> FrameOf(t, pid, start / p + 2) == h
  {
    hide FrameOf;
    var k := start / p;
    PageStart(start, p);
    TimesStep(p, k);
    TimesStep(p, k + 1);
    assert (k + 2) * p == start - start % p + 2 * p;
  }

  lemma EndThere(g: Geometry, m: seq<Byte>, pid: int, program: seq<Byte>, start: nat, length: nat, k: nat, at: nat)
    requires GeometryOk(g) && |m| == g.frames * g.frameSize && CoreInv(g, CoreOf(g, m)) && pid >= 1
    requires Stored(g, CoreOf(g, m), pid, program) && NulFree(program)
    requires start < |program| && start + length <= |program| && length <= 2 * g.frameSize
    requires k == start / g.frameSize && at == start - start % g.frameSize
    requires start % g.frameSize + length > 2 * g.frameSize
    requires SecondReadInMemory(g, m, pid, start, length)
    requires var t, past := CoreOf(g, m).table, start % g.frameSize + length - 2 * g.frameSize;
      EndIsThere(t, pid, program, g.frameSize, FrameOf(t, pid, k + 1) + 1, start + length - past, past)
    ensures RawFetched(g, m, pid, start, length) == Some(program[start..start + length])
  {
    hide CoreInv, CoreOf, FrameOf, Stored, NulFree, FrameAt, RawFetched, CString, EndIsThere;
    var t, past := CoreOf(g, m).table, start % g.frameSize + length - 2 * g.frameSize;
    FetchPast(g, m, pid, program, start, length, k, at);
    BeginsAsItEnds(g, m, pid, program, FrameOf(t, pid, k + 1) + 1, start + length - past, past);
  }

  lemma BeginsAsItEnds(g: Geometry, m: seq<Byte>, pid: int, program: seq<Byte>, h: nat, from: nat, past: nat)
    requires GeometryOk(g) && |m| == g.frames * g.frameSize && CoreInv(g, CoreOf(g, m)) && pid >= 1
    requires Stored(g, CoreOf(g, m), pid, program) && NulFree(program)
    requires h < g.frames && 0 < past <= g.frameSize && from + past <= |program|
    requires EndIsThere(CoreOf(g, m).table, pid, program, g.frameSize, h, from, past)
    ensures FrameAt(g, m, h)[..past] == program[from..from + past]
  {
    hide CoreInv, CoreOf, FrameOf, Stored, NulFree, FrameAt, CString;
    var t, p := CoreOf(g, m).table, g.frameSize;
    var j: nat :| FrameOf(t, pid, j) == h && j * p + past <= |program|
                  && program[j * p..j * p + past] == program[from..from + past];
    FrameHolds(g, m, pid, program, j, j * p, 0, past);
  }

  /** In which frame a page lies says which page it is. */
  lemma OnlyPage(g: Geometry, c: Core, pid: int, j: int, k: int)
    requires CoreInv(g, c) && FrameOf(c.table, pid, j) == FrameOf(c.table, pid, k) >= 0
    ensures j == k
  {
  }

  /** If no page of the program settles what the frame begins with, there is a byte to blame
      that lies behind all that the program has there. */
  lemma LooseFrom(g: Geometry, m: seq<Byte>, pid: int, program: seq<Byte>, h: nat, from: nat, past: nat) returns (o: nat)
    requires GeometryOk(g) && |m| == g.frames * g.frameSize && CoreInv(g, CoreOf(g, m)) && pid >= 1
    requires Stored(g, CoreOf(g, m), pid, program) && NulFree(program)
    requires h < g.frames && 0 < past <= g.frameSize && from + past <= |program|
    requires !EndIsThere(CoreOf(g, m).table, pid, program, g.frameSize, h, from, past)
    requires FrameAt(g, m, h)[..past] == program[from..from + past]
    ensures o < past
    ensures forall k: nat :: FrameOf(CoreOf(g, m).table, pid, k) == h ==> |program| <= k * g.frameSize + o
  {
    hide CoreInv, CoreOf, FrameOf, Stored, NulFree, FrameAt, CString;
    var t, p := CoreOf(g, m).table, g.frameSize;
    o := 0;
    if j: nat :| FrameOf(t, pid, j) == h {
      if j * p + past <= |program| {
        FrameHolds(g, m, pid, program, j, j * p, 0, past);
        assert false;
      }
      o := if |program| <= j * p then 0 else |program| - j * p;
      forall k: nat | FrameOf(t, pid, k) == h
        ensures k == j
      {
        OnlyPage(g, CoreOf(g, m), pid, k, j);
      }
    }
  }

  lemma EndNotThere(g: Geometry, m: seq<Byte>, pid: int, program: seq<Byte>, start: nat, length: nat, k: nat, at: nat)
      returns (n: seq<Byte>)
    requires GeometryOk(g) && |m| == g.frames * g.frameSize && pid >= 1 && Alike(g, m, m, pid, program)
    requires NulFree(program)
    requires start < |program| && start + length <= |program| && length <= 2 * g.frameSize
    requires k == start / g.frameSize && at == start - start % g.frameSize
    requires start % g.frameSize + length > 2 * g.frameSize
    requires SecondReadInMemory(g, m, pid, start, length)
    requires var t, past := CoreOf(g, m).table, start % g.frameSize + length - 2 * g.frameSize;
      !EndIsThere(t, pid, program, g.frameSize, FrameOf(t, pid, k + 1) + 1, start + length - past, past)
    ensures Alike(g, m, n, pid, program)
    ensures RawFetched(g, n, pid, start, length) != Some(program[start..start + length])
  {
    hide CoreInv, CoreOf, FrameOf, Stored, NulFree, FrameAt, RawFetched, CString, Paste, PageBytes, Mapped, EndIsThere;
    var t, past := CoreOf(g, m).table, start % g.frameSize + length - 2 * g.frameSize;
    FetchPast(g, m, pid, program, start, length, k, at);
    BeyondTable(g, CoreOf(g, m), pid, k + 1);
    var h := FrameOf(t, pid, k + 1) + 1;
    n := m;
    if RawFetched(g, m, pid, start, length) == Some(program[start..start + length]) {
      var o := LooseFrom(g, m, pid, program, h, start + length - past, past);
      var x;
      n, x := Spoil(g, m, pid, program, h, o);
      FetchPast(g, n, pid, program, start, length, k, at);
      OneDiffers(FrameAt(g, m, h), o, x, past);
    }
  }
}
