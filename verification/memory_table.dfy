/** The inverted page table of the memory server, and its place inside the very memory
    it describes: entry i lies in bytes 12*i to 12*i+12, so that the table fills the
    first frames and the frames of processes come after. */
module MemoryTable {
  import opened Bytes

  /** sizeof(struct_adm_memoria). */
  const ENTRY: nat := 12
  const NOBODY := -1
  const TABLE_OWNER := -9

  datatype Entry = Entry(frame: int, pid: int, page: int)

  datatype Geometry = Geometry(frames: nat, frameSize: nat)

  /** sizeStructsAdmMemoria: frames that the table takes. */
  function TableFrames(g: Geometry): (t: nat)
    requires g.frameSize > 0
    ensures ENTRY * g.frames <= t * g.frameSize
  {
    var t := (ENTRY * g.frames + g.frameSize - 1) / g.frameSize;
    assert t * g.frameSize + (ENTRY * g.frames + g.frameSize - 1) % g.frameSize
        == ENTRY * g.frames + g.frameSize - 1;
    t
  }

  /** No frame more than it needs. */
  lemma LeastFrames(g: Geometry)
    requires g.frameSize > 0
    ensures TableFrames(g) * g.frameSize < ENTRY * g.frames + g.frameSize
  {
    var n := ENTRY * g.frames + g.frameSize - 1;
    assert n / g.frameSize * g.frameSize + n % g.frameSize == n;
  }

  ghost predicate GeometryOk(g: Geometry) {
    g.frameSize > 0 && g.frames > 0 && IsInt(g.frames) && TableFrames(g) <= g.frames
  }

  // ----- the table as a list of entries -----

  /** cantPaginasDeProceso, and verificarEspacioLibre when pid is NOBODY. */
  function Count(t: seq<Entry>, pid: int): (n: nat)
    ensures n <= |t|
  {
    if t == [] then 0 else (if t[0].pid == pid then 1 else 0) + Count(t[1..], pid)
  }

  /** Linear scan for the frame of a page: the reference that hashing must agree with. */
  function FrameOf(t: seq<Entry>, pid: int, page: int): (f: int)
    ensures -1 <= f < |t|
    ensures f >= 0 ==> t[f].pid == pid && t[f].page == page
    ensures forall i :: 0 <= i < (if f < 0 then |t| else f) ==> !(t[i].pid == pid && t[i].page == page)
  {
    if t == [] then -1
    else if t[0].pid == pid && t[0].page == page then 0
    else
      var f := FrameOf(t[1..], pid, page);
      if f < 0 then -1 else f + 1
  }

  /** buscarFrameVacio. */
  function FirstFree(t: seq<Entry>): (f: int)
    ensures -1 <= f < |t|
    ensures f >= 0 ==> t[f].pid == NOBODY
    ensures forall i :: 0 <= i < (if f < 0 then |t| else f) ==> t[i].pid != NOBODY
  {
    if t == [] then -1
    else if t[0].pid == NOBODY then 0
    else
      var f := FirstFree(t[1..]);
      if f < 0 then -1 else f + 1
  }

  /** borrarProgramDeStructAdms. */
  function Wipe(t: seq<Entry>, pid: int): (r: seq<Entry>)
    ensures |r| == |t|
  {
    seq(|t|, i requires 0 <= i < |t| => if t[i].pid == pid then Entry(t[i].frame, NOBODY, NOBODY) else t[i])
  }

  /** What every reachable table satisfies. */
  ghost predicate TableInv(g: Geometry, t: seq<Entry>) {
    && GeometryOk(g)
    && |t| == g.frames
    && (forall i :: 0 <= i < |t| ==> t[i].frame == i)
    && (forall i :: 0 <= i < TableFrames(g) ==> t[i].pid == TABLE_OWNER && t[i].page == i)
    && (forall i :: TableFrames(g) <= i < |t| ==>
          IsInt(t[i].pid) && (t[i].pid == NOBODY || t[i].pid >= 1))
    && (forall i :: TableFrames(g) <= i < |t| && t[i].pid == NOBODY ==> t[i].page == NOBODY)
    && (forall i :: 0 <= i < |t| && t[i].pid >= 1 ==> 0 <= t[i].page < Count(t, t[i].pid))
    && (forall i, j :: 0 <= i < j < |t| && t[i].pid == t[j].pid && t[i].pid >= 1 ==> t[i].page != t[j].page)
    && (forall pid, page :: pid >= 1 && 0 <= page < Count(t, pid) ==> FrameOf(t, pid, page) >= 0)
  }

  lemma {:induction false} CountUpdate(t: seq<Entry>, i: nat, e: Entry, pid: int)
    requires i < |t|
    ensures Count(t[i := e], pid) + (if t[i].pid == pid then 1 else 0)
         == Count(t, pid) + (if e.pid == pid then 1 else 0)
  {
    if i == 0 {
      assert t[i := e][1..] == t[1..];
    } else {
      CountUpdate(t[1..], i - 1, e, pid);
      assert t[i := e][1..] == t[1..][i - 1 := e];
    }
  }

  lemma {:induction false} CountNone(t: seq<Entry>, pid: int)
    ensures Count(t, pid) == 0 <==> forall i :: 0 <= i < |t| ==> t[i].pid != pid
  {
    if t != [] {
      CountNone(t[1..], pid);
      assert forall i :: 0 <= i < |t| - 1 ==> t[1..][i] == t[i + 1];
      if forall i :: 0 <= i < |t[1..]| ==> t[1..][i].pid != pid {
        forall i | 1 <= i < |t|
          ensures t[i].pid != pid
        {
          assert t[1..][i - 1].pid != pid;
        }
      }
    }
  }

  lemma {:induction false} CountSame(t: seq<Entry>, r: seq<Entry>, pid: int)
    requires |t| == |r| && forall i :: 0 <= i < |t| ==> (t[i].pid == pid <==> r[i].pid == pid)
    ensures Count(t, pid) == Count(r, pid)
  {
    if t != [] {
      CountSame(t[1..], r[1..], pid);
    }
  }

  /** An index that holds a pair is the frame of that pair when pairs are unique. */
  lemma FrameIs(g: Geometry, t: seq<Entry>, i: nat)
    requires TableInv(g, t) && i < |t| && t[i].pid >= 1
    ensures FrameOf(t, t[i].pid, t[i].page) == i == t[i].frame
  {
  }

  lemma FrameAfterTable(g: Geometry, t: seq<Entry>, pid: int, page: int)
    requires TableInv(g, t) && pid >= 1
    ensures FrameOf(t, pid, page) < 0 || FrameOf(t, pid, page) >= TableFrames(g)
    ensures FrameOf(t, pid, page) >= 0 <==> 0 <= page < Count(t, pid)
  {
  }

  // ----- giving one frame -----

  /** asignarPaginasAProceso for one page, with buscarFrameVacio's frame. */
  function AssignOne(t: seq<Entry>, pid: int): (r: seq<Entry>)
    requires FirstFree(t) >= 0
    ensures |r| == |t|
  {
    t[FirstFree(t) := Entry(FirstFree(t), pid, Count(t, pid))]
  }

  lemma AssignCounts(t: seq<Entry>, pid: int, q: int)
    requires FirstFree(t) >= 0
    ensures Count(AssignOne(t, pid), q)
         == Count(t, q) + (if q == pid then 1 else 0) - (if q == NOBODY then 1 else 0)
  {
    CountUpdate(t, FirstFree(t), AssignOne(t, pid)[FirstFree(t)], q);
  }

  /** The free frame becomes the process's next page, and nothing else moves. */
  lemma AssignOneInv(g: Geometry, t: seq<Entry>, pid: int)
    requires TableInv(g, t) && pid >= 1 && IsInt(pid) && FirstFree(t) >= 0
    ensures var r, n, f := AssignOne(t, pid), Count(t, pid), FirstFree(t);
      && TableInv(g, r)
      && f >= TableFrames(g)
      && FrameOf(t, pid, n) < 0 && FrameOf(r, pid, n) == f
  {
    hide Count, FrameOf, FirstFree, TableFrames;
    var r, n, f := AssignOne(t, pid), Count(t, pid), FirstFree(t);
    FrameAfterTable(g, t, pid, n);
    forall i | 0 <= i < |r| && r[i].pid >= 1
      ensures 0 <= r[i].page < Count(r, r[i].pid)
    {
      AssignCounts(t, pid, r[i].pid);
    }
    forall q, k | q >= 1 && 0 <= k < Count(r, q)
      ensures FrameOf(r, q, k) >= 0
    {
      AssignCounts(t, pid, q);
      if q == pid && k == n {
        assert r[f].pid == pid && r[f].page == n;
      } else {
        AssignKeepsFrame(t, pid, q, k);
      }
    }
    assert forall i :: 0 <= i < |t| ==> !(t[i].pid == pid && t[i].page == n);
  }

  lemma AssignKeepsFrame(t: seq<Entry>, pid: int, q: int, k: int)
    requires FirstFree(t) >= 0 && q >= 1 && !(q == pid && k == Count(t, pid))
    ensures FrameOf(AssignOne(t, pid), q, k) == FrameOf(t, q, k)
  {
    var r, f := AssignOne(t, pid), FirstFree(t);
    var a, b := FrameOf(r, q, k), FrameOf(t, q, k);
    assert forall i :: 0 <= i < |t| && i != f ==> r[i] == t[i];
  }

  // ----- taking every frame of a process back -----

  lemma WipeInv(g: Geometry, t: seq<Entry>, pid: int)
    requires TableInv(g, t) && pid >= 1
    ensures var r := Wipe(t, pid);
      && TableInv(g, r)
      && Count(r, pid) == 0
      && (forall q :: q != pid && q != NOBODY ==> Count(r, q) == Count(t, q))
      && (forall k :: FrameOf(r, pid, k) < 0)
      && (forall q, k :: q >= 1 && q != pid ==> FrameOf(r, q, k) == FrameOf(t, q, k))
  {
    hide Count, FrameOf, TableFrames;
    var r := Wipe(t, pid);
    forall q | q != pid && q != NOBODY
      ensures Count(r, q) == Count(t, q)
    {
      CountSame(t, r, q);
    }
    CountNone(r, pid);
    forall q, k | q >= 1 && q != pid
      ensures FrameOf(r, q, k) == FrameOf(t, q, k)
    {
      WipeKeepsFrame(t, pid, q, k);
    }
  }

  lemma WipeKeepsFrame(t: seq<Entry>, pid: int, q: int, k: int)
    requires q >= 1 && q != pid
    ensures FrameOf(Wipe(t, pid), q, k) == FrameOf(t, q, k)
  {
    var r := Wipe(t, pid);
    var a, b := FrameOf(r, q, k), FrameOf(t, q, k);
    assert forall i :: 0 <= i < |t| ==> (r[i].pid == q && r[i].page == k <==> t[i].pid == q && t[i].page == k);
  }

  // ----- the table in the bytes of memory -----

  function EncodeEntry(e: Entry): (b: seq<Byte>)
    requires IsInt(e.frame) && IsInt(e.pid) && IsInt(e.page)
    ensures |b| == ENTRY
  {
    EncodeInt(e.frame) + EncodeInt(e.pid) + EncodeInt(e.page)
  }

  function DecodeEntry(b: seq<Byte>): Entry
    requires |b| == ENTRY
  {
    Entry(DecodeInt(b[..4]), DecodeInt(b[4..8]), DecodeInt(b[8..]))
  }

  lemma DecodeEncodeEntry(e: Entry)
    requires IsInt(e.frame) && IsInt(e.pid) && IsInt(e.page)
    ensures DecodeEntry(EncodeEntry(e)) == e
  {
    var b := EncodeEntry(e);
    assert b[..4] == EncodeInt(e.frame);
    assert b[4..8] == EncodeInt(e.pid);
    assert b[8..] == EncodeInt(e.page);
    DecodeEncodeInt(e.frame);
    DecodeEncodeInt(e.pid);
    DecodeEncodeInt(e.page);
  }

  function EntryAt(m: seq<Byte>, i: nat): Entry
    requires ENTRY * i + ENTRY <= |m|
  {
    DecodeEntry(m[ENTRY * i..ENTRY * i + ENTRY])
  }

  function FrameAt(g: Geometry, m: seq<Byte>, f: nat): (b: seq<Byte>)
    requires |m| == g.frames * g.frameSize && f < g.frames
    ensures |b| == g.frameSize
  {
    FrameFits(g, f);
    m[f * g.frameSize..f * g.frameSize + g.frameSize]
  }

  lemma FrameFits(g: Geometry, f: nat)
    requires f < g.frames
    ensures f * g.frameSize + g.frameSize <= g.frames * g.frameSize
  {
    assert (f + 1) * g.frameSize <= g.frames * g.frameSize;
  }

  lemma TableFits(g: Geometry, f: nat)
    requires GeometryOk(g) && TableFrames(g) <= f
    ensures ENTRY * g.frames <= f * g.frameSize
    ensures ENTRY * g.frames <= g.frames * g.frameSize
  {
    assert TableFrames(g) * g.frameSize <= f * g.frameSize;
    assert TableFrames(g) * g.frameSize <= g.frames * g.frameSize;
  }

  /** The table read off the bytes. */
  function TableOf(g: Geometry, m: seq<Byte>): (t: seq<Entry>)
    requires GeometryOk(g) && |m| == g.frames * g.frameSize
    ensures |t| == g.frames
  {
    TableFits(g, g.frames);
    seq(g.frames, i requires 0 <= i < g.frames => EntryAt(m, i))
  }

  /** The frames that belong to processes, read off the bytes: data[f - TableFrames]. */
  function DataOf(g: Geometry, m: seq<Byte>): (d: seq<seq<Byte>>)
    requires GeometryOk(g) && |m| == g.frames * g.frameSize
    ensures |d| == g.frames - TableFrames(g)
  {
    seq(g.frames - TableFrames(g), j requires 0 <= j < g.frames - TableFrames(g) => FrameAt(g, m, TableFrames(g) + j))
  }

  lemma DataSizes(g: Geometry, m: seq<Byte>)
    requires GeometryOk(g) && |m| == g.frames * g.frameSize
    ensures forall j :: 0 <= j < |DataOf(g, m)| ==> |DataOf(g, m)[j]| == g.frameSize
  {
    forall j | 0 <= j < |DataOf(g, m)|
      ensures |DataOf(g, m)[j]| == g.frameSize
    {
      assert |FrameAt(g, m, TableFrames(g) + j)| == g.frameSize;
    }
  }

  lemma EntryUntouched(m: seq<Byte>, at: nat, d: seq<Byte>, k: nat)
    requires at + |d| <= |m| && ENTRY * k + ENTRY <= |m|
    requires ENTRY * k + ENTRY <= at || at + |d| <= ENTRY * k
    ensures EntryAt(Paste(m, at, d), k) == EntryAt(m, k)
  {
    PasteElsewhere(m, at, d, ENTRY * k, ENTRY * k + ENTRY);
  }

  lemma FrameUntouched(g: Geometry, m: seq<Byte>, at: nat, d: seq<Byte>, f: nat)
    requires |m| == g.frames * g.frameSize && f < g.frames && at + |d| <= |m|
    requires f * g.frameSize + g.frameSize <= at || at + |d| <= f * g.frameSize
    ensures FrameAt(g, Paste(m, at, d), f) == FrameAt(g, m, f)
  {
    FrameFits(g, f);
    PasteElsewhere(m, at, d, f * g.frameSize, f * g.frameSize + g.frameSize);
  }

  /** Writing entry i changes that entry and no frame of a process. */
  lemma WriteEntry(g: Geometry, m: seq<Byte>, i: nat, e: Entry)
    requires GeometryOk(g) && |m| == g.frames * g.frameSize && i < g.frames
    requires IsInt(e.frame) && IsInt(e.pid) && IsInt(e.page)
    ensures ENTRY * i + ENTRY <= |m|
    ensures TableOf(g, Paste(m, ENTRY * i, EncodeEntry(e))) == TableOf(g, m)[i := e]
    ensures DataOf(g, Paste(m, ENTRY * i, EncodeEntry(e))) == DataOf(g, m)
  {
    hide EntryAt, FrameAt, Paste, EncodeEntry;
    TableFits(g, g.frames);
    var d := EncodeEntry(e);
    var r := Paste(m, ENTRY * i, d);
    WrittenEntry(m, i, e);
    forall k | 0 <= k < g.frames
      ensures TableOf(g, r)[k] == TableOf(g, m)[i := e][k]
    {
      if k != i {
        EntryUntouched(m, ENTRY * i, d, k);
      }
    }
    forall j | 0 <= j < |DataOf(g, r)|
      ensures DataOf(g, r)[j] == DataOf(g, m)[j]
    {
      TableFits(g, TableFrames(g) + j);
      FrameUntouched(g, m, ENTRY * i, d, TableFrames(g) + j);
    }
  }

  lemma WrittenEntry(m: seq<Byte>, i: nat, e: Entry)
    requires ENTRY * i + ENTRY <= |m|
    requires IsInt(e.frame) && IsInt(e.pid) && IsInt(e.page)
    ensures EntryAt(Paste(m, ENTRY * i, EncodeEntry(e)), i) == e
  {
    PasteHere(m, ENTRY * i, EncodeEntry(e));
    DecodeEncodeEntry(e);
  }

  /** A write inside a frame of a process changes that frame and never the table. */
  lemma WriteData(g: Geometry, m: seq<Byte>, f: nat, off: nat, d: seq<Byte>)
    requires GeometryOk(g) && |m| == g.frames * g.frameSize
    requires TableFrames(g) <= f < g.frames && off + |d| <= g.frameSize
    ensures f * g.frameSize + off + |d| <= |m|
    ensures TableOf(g, Paste(m, f * g.frameSize + off, d)) == TableOf(g, m)
    ensures DataOf(g, Paste(m, f * g.frameSize + off, d))
         == DataOf(g, m)[f - TableFrames(g) := Paste(FrameAt(g, m, f), off, d)]
  {
    hide EntryAt, FrameAt, Paste;
    FrameFits(g, f);
    TableFits(g, f);
    var at := f * g.frameSize + off;
    var r := Paste(m, at, d);
    forall k | 0 <= k < g.frames
      ensures TableOf(g, r)[k] == TableOf(g, m)[k]
    {
      EntryUntouched(m, at, d, k);
    }
    WrittenFrame(g, m, f, off, d);
    forall j | 0 <= j < |DataOf(g, r)|
      ensures DataOf(g, r)[j] == DataOf(g, m)[f - TableFrames(g) := Paste(FrameAt(g, m, f), off, d)][j]
    {
      var h := TableFrames(g) + j;
      if h != f {
        FramesApart(g, f, h);
        FrameUntouched(g, m, at, d, h);
      }
    }
  }

  lemma WrittenFrame(g: Geometry, m: seq<Byte>, f: nat, off: nat, d: seq<Byte>)
    requires |m| == g.frames * g.frameSize && f < g.frames && off + |d| <= g.frameSize
    ensures f * g.frameSize + off + |d| <= |m|
    ensures FrameAt(g, Paste(m, f * g.frameSize + off, d), f) == Paste(FrameAt(g, m, f), off, d)
  {
    FrameFits(g, f);
    PasteInside(m, f * g.frameSize + off, d, f * g.frameSize, f * g.frameSize + g.frameSize);
  }

  lemma FramesApart(g: Geometry, f: nat, h: nat)
    requires f != h
    ensures f * g.frameSize + g.frameSize <= h * g.frameSize || h * g.frameSize + g.frameSize <= f * g.frameSize
  {
    if f < h {
      assert (f + 1) * g.frameSize <= h * g.frameSize;
    } else {
      assert (h + 1) * g.frameSize <= f * g.frameSize;
    }
  }
}
