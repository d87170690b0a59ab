/** What each request to the memory server does to its cache, slot by slot, and which frames
    it gives out. */
module MemoryLaws {
  import opened Bytes
  import opened MemoryTable
  import opened MemorySpec
  import opened MemoryTheorems

  /** A read answers 0 from the cache and the frame from memory, or -1. The page is in the
      cache afterwards iff it was or the process had room; it then is the slot used last. Only
      when it comes in does a slot change, the one given up for it. */
  lemma ReadUses(st: Settings, s: State, pid: int, page: int, off: nat, size: nat)
    requires Inv(st, s) && Ready(st, s, RqRead(pid, page, off, size))
    ensures |s.cache| == |s.uses|
    ensures var (t, code, _) := Read(st, s, pid, page, off, size);
      var i, j := SlotOf(s.cache, pid, page), SlotOf(t.cache, pid, page);
      && code == (if i >= 0 then 0 else FrameOf(s.core.table, pid, page))
      && (j >= 0 <==> i >= 0 || SlotCount(s.cache, pid) < st.perProcess)
      && (i >= 0 ==> j == i)
      && |t.cache| == |s.cache|
      && (forall k :: 0 <= k < |s.cache| && (k != j || i >= 0) ==> t.cache[k] == s.cache[k])
      && (i < 0 <= j ==> s.uses != [] && j == Victim(s.uses))
      && (if j >= 0 then t.touched == s.touched + [j] && t.uses == s.uses[j := |s.touched| + 1]
          else t == s)
  {
    hide CoreInv, SlotCount, LastTouch, PageBytes, FrameOf, Victim;
    ReadStep(st, s, pid, page, off, size);
    var t := Read(st, s, pid, page, off, size).0;
    var i := SlotOf(s.cache, pid, page);
    if i >= 0 {
      assert t.cache == s.cache;
    } else if SlotCount(s.cache, pid) < st.perProcess {
      OnlySlot(st, t, Victim(s.uses));
    }
  }

  /** A page is in one slot only, and the search finds it there. */
  lemma OnlySlot(st: Settings, s: State, i: nat)
    requires Inv(st, s) && i < |s.cache| && s.cache[i].pid >= 1
    ensures SlotOf(s.cache, s.cache[i].pid, s.cache[i].page) == i
  {
    hide CoreInv, SlotCount, LastTouch;
  }

  /** A write answers the frame, or -1. It uses the slot of the page, if there is one, and
      touches no other; no page enters or leaves the cache. */
  lemma WriteUses(st: Settings, s: State, pid: int, page: int, off: nat, d: seq<Byte>)
    requires Inv(st, s) && Ready(st, s, RqWrite(pid, page, off, d))
    ensures |s.cache| == |s.uses|
    ensures var (t, code) := Write(st, s, pid, page, off, d);
      var i := SlotOf(s.cache, pid, page);
      && code == FrameOf(s.core.table, pid, page)
      && |t.cache| == |s.cache|
      && (forall k :: 0 <= k < |s.cache| ==> t.cache[k].pid == s.cache[k].pid && t.cache[k].page == s.cache[k].page)
      && (forall k :: 0 <= k < |s.cache| && k != i ==> t.cache[k] == s.cache[k])
      && (if i >= 0 then t.touched == s.touched + [i] && t.uses == s.uses[i := |s.touched| + 1]
          else t.touched == s.touched && t.uses == s.uses)
  {
    hide CoreInv, SlotCount, LastTouch, PageBytes;
    WriteParts(st, s, pid, page, off, d);
  }

  /** Giving out pages leaves the cache alone. */
  lemma AssignUses(s: State, pid: int, n: int)
    requires pid != NOBODY
    ensures var t := Assign(s, pid, n).0;
      t.cache == s.cache && t.uses == s.uses && t.touched == s.touched && t.core.data == s.core.data
  {
  }

  /** The end of a process empties its own slots and no other; a page of another process is
      found where it was, and reading it answers what it would have. */
  lemma FinishUses(st: Settings, s: State, pid: int)
    requires Inv(st, s) && pid >= 1
    ensures var t := Finish(s, pid);
      && t.uses == s.uses && t.touched == s.touched && t.core.data == s.core.data && |t.cache| == |s.cache|
      && (forall k :: 0 <= k < |s.cache| && s.cache[k].pid != pid ==> t.cache[k] == s.cache[k])
      && (forall k :: 0 <= k < |s.cache| && s.cache[k].pid == pid ==>
            t.cache[k] == Slot(NOBODY, NOBODY, s.cache[k].content))
      && (forall q, page :: q >= 1 && q != pid ==> SlotOf(t.cache, q, page) == SlotOf(s.cache, q, page))
  {
    hide CoreInv, SlotCount, LastTouch, Wipe;
    var t := Finish(s, pid);
    forall q, page | q >= 1 && q != pid
      ensures SlotOf(t.cache, q, page) == SlotOf(s.cache, q, page)
    {
      SameSearch(s.cache, t.cache, q, page);
    }
  }

  lemma {:induction false} SameSearch(a: seq<Slot>, b: seq<Slot>, pid: int, page: int)
    requires |a| == |b|
    requires forall k :: 0 <= k < |a| ==>
               (a[k].pid == pid && a[k].page == page <==> b[k].pid == pid && b[k].page == page)
    ensures SlotOf(a, pid, page) == SlotOf(b, pid, page)
  {
    if a != [] {
      SameSearch(a[1..], b[1..], pid, page);
    }
  }

  lemma OtherAnswer(st: Settings, s: State, pid: int, q: int, page: int, off: nat, size: nat)
    requires Inv(st, s) && pid >= 1 && q != pid && Ready(st, s, RqRead(q, page, off, size))
    requires Mapped(s.core, q, page)
    ensures Inv(st, Finish(s, pid)) && Ready(st, Finish(s, pid), RqRead(q, page, off, size))
    ensures Read(st, Finish(s, pid), q, page, off, size).1 == Read(st, s, q, page, off, size).1
    ensures Read(st, Finish(s, pid), q, page, off, size).2 == Read(st, s, q, page, off, size).2
  {
    hide CoreInv, CacheInv, SlotOf, PageBytes, CoreFinish, FrameOf, Read, Mapped;
    FinishStep(st, s, pid);
    FinishUses(st, s, pid);
    CoreFinishCorrect(st.geo, s.core, pid);
    var t := Finish(s, pid);
    OtherFrame(st.geo, s.core, pid, q, page);
    ReadStep(st, s, q, page, off, size);
    ReadStep(st, t, q, page, off, size);
    ReadUses(st, s, q, page, off, size);
    ReadUses(st, t, q, page, off, size);
  }

  lemma OtherFrame(g: Geometry, c: Core, pid: int, q: int, page: int)
    requires CoreInv(g, c) && pid >= 1 && q >= 1 && q != pid
    ensures FrameOf(CoreFinish(c, pid).table, q, page) == FrameOf(c.table, q, page)
  {
    WipeInv(g, c.table, pid);
  }

  /** Flushing empties every slot and every stamp, and leaves memory and the history. */
  lemma FlushUses(s: State)
    ensures var t := Flush(s);
      && t.core == s.core && t.touched == s.touched && |t.cache| == |s.cache| && |t.uses| == |s.uses|
      && (forall k :: 0 <= k < |t.cache| ==> t.cache[k] == Slot(NOBODY, NOBODY, s.cache[k].content))
      && (forall k :: 0 <= k < |t.uses| ==> t.uses[k] == NEVER)
  {
  }

  /** Of several slots never used the first is given up. */
  lemma VictimIsFirst(uses: seq<int>)
    requires uses != []
    ensures var v := Victim(uses);
      (exists k :: 0 <= k < |uses| && uses[k] == NEVER) ==>
        uses[v] == NEVER && forall k :: 0 <= k < v ==> uses[k] != NEVER
  {
  }

  /** From t to r the process got pages m to m + n - 1: frames that were free, each behind the
      one before, and what is free afterwards was free before and lies behind them all. */
  ghost predicate TookFirst(t: seq<Entry>, r: seq<Entry>, pid: int, m: nat, n: nat) {
    && |r| == |t|
    && (forall i :: 0 <= i < |t| && r[i].pid == NOBODY ==> t[i].pid == NOBODY)
    && (forall k :: m <= k < m + n ==> 0 <= FrameOf(r, pid, k) && t[FrameOf(r, pid, k)].pid == NOBODY)
    && (forall j, k :: m <= j < k < m + n ==> FrameOf(r, pid, j) < FrameOf(r, pid, k))
    && (forall i, k :: 0 <= i < |t| && r[i].pid == NOBODY && m <= k < m + n ==> FrameOf(r, pid, k) < i)
  }

  /** A process gets the first free frames, its pages in their order. */
  lemma {:induction false} FirstFrames(g: Geometry, t: seq<Entry>, pid: int, n: nat)
    requires TableInv(g, t) && pid >= 1 && IsInt(pid) && Count(t, NOBODY) >= n
    ensures TookFirst(t, AssignMany(t, pid, n), pid, Count(t, pid), n)
    decreases n
  {
    hide TableInv, Count, FrameOf, AssignOne, FirstFree;
    if n > 0 {
      hide TookFirst;
      CountNone(t, NOBODY);
      AssignOneInv(g, t, pid);
      AssignCounts(t, pid, NOBODY);
      AssignCounts(t, pid, pid);
      OneTaken(t, pid);
      var u := AssignOne(t, pid);
      FirstFrames(g, u, pid, n - 1);
      AssignManyInv(g, u, pid, n - 1);
      OneBefore(t, u, AssignMany(u, pid, n - 1), pid, Count(t, pid), n);
    }
  }

  lemma OneBefore(t: seq<Entry>, u: seq<Entry>, r: seq<Entry>, pid: int, m: nat, n: nat)
    requires n > 0 && |u| == |t| && TookFirst(u, r, pid, m + 1, n - 1)
    requires 0 <= FrameOf(r, pid, m) < |t| && t[FrameOf(r, pid, m)].pid == NOBODY
    requires forall i :: 0 <= i < |t| && u[i].pid == NOBODY ==> t[i].pid == NOBODY && FrameOf(r, pid, m) < i
    ensures TookFirst(t, r, pid, m, n)
  {
    hide FrameOf;
  }

  lemma OneTaken(t: seq<Entry>, pid: int)
    requires pid != NOBODY && FirstFree(t) >= 0
    ensures forall i :: 0 <= i < |t| && AssignOne(t, pid)[i].pid == NOBODY ==>
              t[i].pid == NOBODY && FirstFree(t) < i
    ensures t[FirstFree(t)].pid == NOBODY
  {
    hide Count;
  }
}
