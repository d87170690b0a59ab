/** The memory server: byte buffers changed in place, one method per C function, each
    proved to do to the whole state what MemorySpec says. */
module MemoryServer {
  import opened Bytes
  import opened MemoryTable
  import opened MemorySpec
  import opened MemoryTheorems
  import opened MemoryLaws

  class Memory {
    const st: Settings
    /** bloque_Memoria: the page table and, after it, the frames of processes. */
    const memory: array<Byte>
    /** bloque_Cache and bloqueBitUsoCache. */
    const cache: array<Slot>
    const uses: array<int>
    /** contadorBitDeUso. */
    var counter: int
    ghost var touched: seq<nat>

    ghost predicate Shape()
      reads this, memory, cache, uses
    {
      && GeometryOk(st.geo)
      && memory.Length == st.geo.frames * st.geo.frameSize
      && cache.Length == uses.Length == st.slots
      && cache as object != uses && cache as object != memory && uses as object != memory
      && counter == |touched| + 1
    }

    ghost function CoreNow(): (c: Core)
      requires Shape()
      reads this, memory, cache, uses
    {
      CoreOf(st.geo, memory[..])
    }

    ghost function Now(): State
      requires Shape()
      reads this, memory, cache, uses
    {
      State(CoreNow(), cache[..], uses[..], touched)
    }

    ghost predicate Valid()
      reads this, memory, cache, uses
    {
      Shape() && Inv(st, Now())
    }

    /** memcpy of entry i out of the table. */
    method ReadEntry(i: nat) returns (e: Entry)
      requires Shape() && i < st.geo.frames
      ensures e == CoreNow().table[i]
    {
      TableFits(st.geo, st.geo.frames);
      e := DecodeEntry(memory[ENTRY * i..ENTRY * i + ENTRY]);
      assert memory[..][ENTRY * i..ENTRY * i + ENTRY] == memory[ENTRY * i..ENTRY * i + ENTRY];
    }

    /** memcpy of an entry into the table: no frame of a process changes. */
    method WriteEntryAt(i: nat, e: Entry)
      requires Shape() && i < st.geo.frames
      requires IsInt(e.frame) && IsInt(e.pid) && IsInt(e.page)
      modifies memory
      ensures Shape() && CoreNow() == old(CoreNow()).(table := old(CoreNow()).table[i := e])
    {
      WriteEntry(st.geo, memory[..], i, e);
      Memcpy(memory, ENTRY * i, EncodeEntry(e));
    }

    /** inicializarMemoriaAdm. */
    method InitTableEntries()
      requires Shape()
      modifies memory
      ensures Shape() && CoreNow() == old(CoreNow()).(table := InitTable(st.geo))
    {
      var own := TableFrames(st.geo);
      var i := 0;
      while i < st.geo.frames
        invariant 0 <= i <= st.geo.frames && Shape()
        invariant CoreNow().data == old(CoreNow()).data
        invariant CoreNow().table[..i] == InitTable(st.geo)[..i]
      {
        ghost var t := CoreNow().table;
        if i < own {
          WriteEntryAt(i, Entry(i, TABLE_OWNER, i));
        } else {
          WriteEntryAt(i, Entry(i, NOBODY, NOBODY));
        }
        assert CoreNow().table == t[i := InitTable(st.geo)[i]];
        i := i + 1;
      }
      assert CoreNow().table == InitTable(st.geo);
    }

    // ----- looking things up -----

    /** funcionHash. */
    function HashStart(pid: int, page: int): (h: nat)
      requires GeometryOk(st.geo) && pid >= 1 && page >= 0
      ensures h < st.geo.frames
    {
      (TableFrames(st.geo) + (pid - 1) + page) % st.geo.frames
    }

    /** The first page of the first process is looked for right behind the table, and every
        further page, as every further process, one frame on, around the end of memory. */
    lemma HashWalks(pid: int, page: int)
      requires GeometryOk(st.geo) && pid >= 1 && page >= 0
      ensures HashStart(1, 0) == if TableFrames(st.geo) < st.geo.frames then TableFrames(st.geo) else 0
      ensures HashStart(pid, page + 1) == if HashStart(pid, page) + 1 < st.geo.frames then HashStart(pid, page) + 1 else 0
      ensures HashStart(pid + 1, page) == HashStart(pid, page + 1)
    {
      hide TableFrames;
      OneOn(TableFrames(st.geo) + (pid - 1) + page, st.geo.frames);
      if TableFrames(st.geo) < st.geo.frames {
        DivMod(TableFrames(st.geo), st.geo.frames, 0, TableFrames(st.geo));
      } else {
        DivMod(TableFrames(st.geo), st.geo.frames, 1, 0);
      }
    }

    static lemma OneOn(x: nat, n: nat)
      requires n > 0
      ensures (x + 1) % n == if x % n + 1 < n then x % n + 1 else 0
    {
      NextDivMod(x, n);
    }

    /** buscarFrameDePaginaDeProceso: a probe that starts at the hash, runs to the end of the
        table and then from the first frame of processes up to the hash, finds exactly
        what a scan of the whole table finds. */
    method FindFrame(pid: int, page: int) returns (f: int)
      requires Shape() && TableInv(st.geo, CoreNow().table) && pid >= 1 && page >= 0
      ensures f == FrameOf(CoreNow().table, pid, page)
    {
      hide Count, FrameOf, CoreOf, TableFrames, TableInv;
      ghost var t := CoreNow().table;
      FrameAfterTable(st.geo, t, pid, page);
      var start := HashStart(pid, page);
      var i := start;
      while i < st.geo.frames
        invariant start <= i <= st.geo.frames
        invariant forall j :: start <= j < i ==> !(t[j].pid == pid && t[j].page == page)
      {
        var e := ReadEntry(i);
        if e.pid == pid && e.page == page {
          FrameIs(st.geo, t, i);
          return e.frame;
        }
        i := i + 1;
      }
      i := TableFrames(st.geo);
      while i < start
        invariant TableFrames(st.geo) <= i
        invariant forall j :: TableFrames(st.geo) <= j < i && j < start ==> !(t[j].pid == pid && t[j].page == page)
      {
        var e := ReadEntry(i);
        if e.pid == pid && e.page == page {
          FrameIs(st.geo, t, i);
          return e.frame;
        }
        i := i + 1;
      }
      return -1;
    }

    /** buscarFrameVacio. */
    method FindFree() returns (f: int)
      requires Shape() && TableInv(st.geo, CoreNow().table)
      ensures f == FirstFree(CoreNow().table)
    {
      hide Count, FrameOf, CoreOf, TableFrames;
      ghost var t := CoreNow().table;
      var i := 0;
      while i < st.geo.frames
        invariant 0 <= i <= st.geo.frames
        invariant forall j :: 0 <= j < i ==> t[j].pid != NOBODY
      {
        var e := ReadEntry(i);
        if e.pid == NOBODY {
          return e.frame;
        }
        i := i + 1;
      }
      return -1;
    }

    /** cantPaginasDeProceso; with pid NOBODY it is verificarEspacioLibre. */
    method CountPages(pid: int) returns (n: nat)
      requires Shape()
      ensures n == Count(CoreNow().table, pid)
    {
      ghost var t := CoreNow().table;
      n := 0;
      var i := 0;
      while i < st.geo.frames
        invariant 0 <= i <= st.geo.frames
        invariant n + Count(t[i..], pid) == Count(t, pid)
      {
        var e := ReadEntry(i);
        if e.pid == pid {
          n := n + 1;
        }
        assert t[i..][1..] == t[i + 1..];
        i := i + 1;
      }
    }

    /** buscarEntradaDeProcesoEnCache. */
    method FindSlot(pid: int, page: int) returns (i: int)
      ensures i == SlotOf(cache[..], pid, page)
    {
      i := 0;
      while i < cache.Length
        invariant 0 <= i <= cache.Length
        invariant forall j :: 0 <= j < i ==> !(cache[j].pid == pid && cache[j].page == page)
      {
        if cache[i].pid == pid && cache[i].page == page {
          return;
        }
        i := i + 1;
      }
      i := -1;
    }

    /** cantidadEntradasDeProcesoEnCache. */
    method CountSlots(pid: int) returns (n: nat)
      ensures n == SlotCount(cache[..], pid)
    {
      n := 0;
      var i := 0;
      while i < cache.Length
        invariant 0 <= i <= cache.Length
        invariant n + SlotCount(cache[i..], pid) == SlotCount(cache[..], pid)
      {
        if cache[i].pid == pid {
          n := n + 1;
        }
        assert cache[i..][1..] == cache[i + 1..];
        i := i + 1;
      }
    }

    /** buscarUnaEntradaParaProcesoEnCache. */
    method FindVictim() returns (victim: nat)
      requires uses.Length > 0
      ensures victim == Victim(uses[..])
    {
      var i := 0;
      var least := 0;
      victim := 0;
      while i < uses.Length
        invariant 0 <= i <= uses.Length
        invariant forall j :: 0 <= j < i ==> uses[j] != NEVER
        invariant if i == 0 then victim == 0 else victim == Oldest(uses[..i]) && least == uses[victim]
      {
        if i == 0 {
          least := uses[i];
          if least == NEVER {
            return i;
          }
        } else {
          var u := uses[i];
          if u == NEVER {
            return i;
          }
          if u <= least {
            least := u;
            victim := i;
          }
        }
        assert uses[..i + 1][..i] == uses[..i];
        i := i + 1;
      }
      assert uses[..uses.Length] == uses[..];
    }

    // ----- the cache -----

    /** The stamp of slot i becomes the counter, which moves on. */
    method Stamp(i: nat, e: Slot)
      requires Shape() && i < cache.Length
      modifies cache, uses, this
      ensures Shape() && Now() == Touch(old(Now()), i, e)
    {
      cache[i] := e;
      uses[i] := counter;
      counter := counter + 1;
      touched := touched + [i];
    }

    /** memcpy of a whole frame out of memory. */
    method ReadFrame(f: nat) returns (b: seq<Byte>)
      requires Shape() && TableFrames(st.geo) <= f < st.geo.frames
      ensures b == CoreNow().data[f - TableFrames(st.geo)]
    {
      FrameFits(st.geo, f);
      b := memory[f * st.geo.frameSize..f * st.geo.frameSize + st.geo.frameSize];
      assert memory[..][f * st.geo.frameSize..f * st.geo.frameSize + st.geo.frameSize] == b;
      assert b == FrameAt(st.geo, memory[..], f);
    }

    /** iniciarEntradaEnCache. */
    method InsertSlot(pid: int, page: int)
      requires Valid() && pid >= 1 && page >= 0 && Mapped(CoreNow(), pid, page) && uses.Length > 0
      modifies cache, uses, this
      ensures Shape()
      ensures Now() == Touch(old(Now()), Victim(old(uses[..])),
                             Slot(pid, page, PageBytes(st.geo, old(CoreNow()), pid, page)))
    {
      hide Count, FrameOf, CoreOf, TableFrames, CacheInv, TableInv, Victim;
      var i := FindVictim();
      var f := FindFrame(pid, page);
      FrameAfterTable(st.geo, CoreNow().table, pid, page);
      var b := ReadFrame(f);
      Stamp(i, Slot(pid, page, b));
    }

    /** actualizarEntradaEnCache. */
    method RefreshSlot(pid: int, page: int)
      requires Shape() && CoreInv(st.geo, CoreNow()) && pid >= 1 && page >= 0 && Mapped(CoreNow(), pid, page)
      requires SlotOf(cache[..], pid, page) >= 0
      modifies cache, uses, this
      ensures Shape()
      ensures Now() == Touch(old(Now()), SlotOf(old(cache[..]), pid, page),
                             Slot(pid, page, PageBytes(st.geo, old(CoreNow()), pid, page)))
    {
      hide Count, FrameOf, CoreOf, TableFrames, SlotOf;
      var f := FindFrame(pid, page);
      var i := FindSlot(pid, page);
      FrameAfterTable(st.geo, CoreNow().table, pid, page);
      var b := ReadFrame(f);
      Stamp(i, Slot(pid, page, b));
    }

    /** borrarEntradasDeProcesoEnCache. */
    method EvictSlots(pid: int)
      requires Shape()
      modifies cache
      ensures Shape() && cache[..] == Evict(old(cache[..]), pid)
      ensures forall j :: 0 <= j < cache.Length ==>
                cache[j] == if old(cache[j]).pid == pid then Slot(NOBODY, NOBODY, old(cache[j]).content)
                            else old(cache[j])
    {
      var i := 0;
      while i < cache.Length
        invariant 0 <= i <= cache.Length && Shape()
        invariant forall j :: 0 <= j < i ==> cache[j] == Evict(old(cache[..]), pid)[j]
        invariant forall j :: i <= j < cache.Length ==> cache[j] == old(cache[j])
      {
        if cache[i].pid == pid {
          cache[i] := Slot(NOBODY, NOBODY, cache[i].content);
        }
        i := i + 1;
      }
    }

    /** vaciarCache, and inicializarCache at the start: contents stay, keys and stamps go. */
    method ClearCache()
      requires Shape()
      modifies cache, uses
      ensures Shape() && Now() == Flush(old(Now()))
    {
      var i := 0;
      while i < cache.Length
        invariant 0 <= i <= cache.Length && Shape()
        invariant forall j :: 0 <= j < i ==> cache[j] == Slot(NOBODY, NOBODY, old(cache[..])[j].content)
        invariant forall j :: i <= j < cache.Length ==> cache[j] == old(cache[..])[j]
      {
        cache[i] := Slot(NOBODY, NOBODY, cache[i].content);
        i := i + 1;
      }
      i := 0;
      while i < uses.Length
        invariant 0 <= i <= uses.Length && Shape()
        invariant forall j :: 0 <= j < i ==> uses[j] == NEVER
        invariant cache[..] == Flush(old(Now())).cache
      {
        uses[i] := NEVER;
        i := i + 1;
      }
    }

    // ----- requests -----

    /** main_solicitarBytesPagina. The size is not checked: a read may run on into whatever
        lies behind the page. */
    method RequestBytes(pid: int, page: int, off: nat, size: nat) returns (code: int, b: seq<Byte>)
      requires Valid() && page >= 0 && Ready(st, Now(), RqRead(pid, page, 0, 0))
      requires Reaches(st, Now(), pid, page, off, size)
      modifies cache, uses, this
      ensures Valid() && (Now(), code, b) == ReadRaw(st, old(Now()), pid, page, off, size)
    {
      hide Count, FrameOf, CoreOf, TableFrames, CoreInv, CacheInv, TableInv, SlotCount, SlotOf, Victim, SlotRun,
           ReadRaw, Source, PageBytes;
      RawStep(st, Now(), pid, page, off, size);
      var i := FindSlot(pid, page);
      if i != -1 {
        RawHit(st, Now(), pid, page, off, size);
        code := 0;
        var run := SlotRun(cache[..], i);
        b := run[off..off + size];
        Stamp(i, cache[i]);
      } else {
        RawMiss(st, Now(), memory[..], pid, page, off, size);
        var n := CountSlots(pid);
        if n < st.perProcess {
          CoreIsSound();
          InsertSlot(pid, page);
        }
        CoreIsSound();
        code := FindFrame(pid, page);
        if code != -1 {
          var at := code * st.geo.frameSize + off;
          b := memory[at..at + size];
        } else {
          b := [];
        }
      }
    }

    lemma CoreIsSound()
      requires Shape() && CoreInv(st.geo, CoreNow())
      ensures TableInv(st.geo, CoreNow().table)
    {
    }

    /** almacenarBytesPagina: straight into memory, never into the table. */
    method StoreInFrame(pid: int, page: int, off: nat, d: seq<Byte>) returns (code: int)
      requires Shape() && CoreInv(st.geo, CoreNow())
      requires pid >= 1 && page >= 0 && off + |d| <= st.geo.frameSize
      modifies memory
      ensures Shape() && (CoreNow(), code) == CoreWrite(st.geo, old(CoreNow()), pid, page, off, d)
    {
      hide Count, FrameOf, TableFrames, CoreOf, TableInv;
      CoreIsSound();
      code := FindFrame(pid, page);
      if code >= 0 {
        var at := code * st.geo.frameSize + off;
        StoreBytesInPlace(st.geo, memory[..], CoreNow(), pid, page, code, at, off, d);
        Memcpy(memory, at, d);
      }
    }

    /** main_almacenarBytesPagina. */
    method StoreBytes(pid: int, page: int, off: nat, d: seq<Byte>) returns (code: int)
      requires Valid() && page >= 0 && Ready(st, Now(), RqWrite(pid, page, off, d))
      modifies memory, cache, uses, this
      ensures Valid() && (Now(), code) == Write(st, old(Now()), pid, page, off, d)
    {
      hide CoreOf, CoreInv, CacheInv, SlotOf, CoreWrite, PageBytes, Mapped, Write;
      WriteStep(st, Now(), pid, page, off, d);
      WriteParts(st, Now(), pid, page, off, d);
      code := StoreInFrame(pid, page, off, d);
      var i := FindSlot(pid, page);
      if i >= 0 {
        RefreshSlot(pid, page);
      }
    }

    /** escribirEstructuraAdmAMemoria: n entries in a row from frame on. */
    method WriteAdmin(pid: int, frame: nat, n: nat, before: nat)
      requires Shape() && frame + n <= st.geo.frames && IsInt(pid) && IsInt(before + n)
      modifies memory
      ensures Shape() && CoreNow().data == old(CoreNow()).data
      ensures forall j :: 0 <= j < st.geo.frames ==>
                CoreNow().table[j] == if frame <= j < frame + n then Entry(j, pid, before + (j - frame))
                                      else old(CoreNow()).table[j]
    {
      hide CoreOf;
      ghost var t := CoreNow().table;
      var e := Entry(frame, pid, before);
      var i := 0;
      while i < n
        invariant 0 <= i <= n && Shape() && CoreNow().data == old(CoreNow()).data
        invariant e == Entry(frame + i, pid, before + i)
        invariant forall j :: 0 <= j < st.geo.frames ==>
                    CoreNow().table[j] == if frame <= j < frame + i then Entry(j, pid, before + (j - frame)) else t[j]
      {
        WriteEntryAt(frame + i, e);
        e := Entry(e.frame + 1, e.pid, e.page + 1);
        i := i + 1;
      }
    }

    /** main_inicializarPrograma and main_asignarPaginasAProceso, which are the same code. */
    method AssignPages(pid: int, n: int) returns (code: int)
      requires Valid() && pid >= 1 && IsInt(pid)
      modifies memory
      ensures Valid() && (Now(), code) == Assign(old(Now()), pid, n)
    {
      hide Count, FrameOf, CoreOf, TableFrames, TableInv, FirstFree, AssignOne, AssignMany, CacheInv;
      AssignStep(st, Now(), pid, n);
      CoreIsSound();
      var free := CountPages(NOBODY);
      if free >= n {
        ghost var t := CoreNow().table;
        var i := 0;
        while i < n
          invariant 0 <= i && (n >= 0 ==> i <= n) && Shape()
          invariant TableInv(st.geo, CoreNow().table)
          invariant CoreNow().data == old(CoreNow()).data
          invariant Count(CoreNow().table, NOBODY) >= n - i
          invariant AssignMany(CoreNow().table, pid, n - i) == AssignMany(t, pid, n)
        {
          ghost var u := CoreNow().table;
          AssignTurn(st.geo, u, pid, n - i);
          var f := FindFree();
          var before := CountPages(pid);
          WriteAdmin(pid, f, 1, before);
          assert CoreNow().table == AssignOne(u, pid);
          i := i + 1;
        }
        assert AssignMany(CoreNow().table, pid, n - i) == CoreNow().table by {
          AssignNone(CoreNow().table, pid, n - i);
        }
        code := 0;
      } else {
        code := -1;
      }
    }

    /** borrarProgramDeStructAdms: the loop starts after the table's own frames. */
    method WipeTable(pid: int)
      requires Shape() && TableInv(st.geo, CoreNow().table) && pid >= 1
      modifies memory
      ensures Shape() && CoreNow() == CoreFinish(old(CoreNow()), pid)
    {
      hide Count, FrameOf, CoreOf, TableFrames, TableInv, Wipe, Wiped;
      ghost var t := CoreNow().table;
      var i := TableFrames(st.geo);
      WipeBegin(st.geo, t, pid);
      while i < st.geo.frames
        invariant i <= st.geo.frames && Shape()
        invariant CoreNow() == old(CoreNow()).(table := Wiped(t, pid, i))
        decreases st.geo.frames - i
      {
        WipeTurn(st.geo, t, pid, i);
        var e := ReadEntry(i);
        if e.pid == pid {
          WriteEntryAt(i, Entry(e.frame, NOBODY, NOBODY));
        }
        i := i + 1;
      }
      WipeOver(t, pid);
    }

    /** finalizarPrograma. */
    method FinishProgram(pid: int)
      requires Valid() && pid >= 1
      modifies memory, cache
      ensures Valid() && Now() == Finish(old(Now()), pid)
      ensures forall j :: 0 <= j < cache.Length && old(cache[j]).pid != pid ==> cache[j] == old(cache[j])
      ensures forall q, page :: q >= 1 && q != pid ==> SlotOf(cache[..], q, page) == SlotOf(old(cache[..]), q, page)
    {
      FinishStep(st, Now(), pid);
      FinishUses(st, Now(), pid);
      WipeTable(pid);
      EvictSlots(pid);
    }

    /** flush. */
    method FlushCache()
      requires Valid()
      modifies cache, uses
      ensures Valid() && Now() == Flush(old(Now()))
    {
      FlushStep(st, Now());
      ClearCache();
    }

    constructor (settings: Settings)
      requires GeometryOk(settings.geo) && (settings.perProcess > 0 ==> settings.slots > 0)
      ensures Valid() && st == settings && fresh(memory) && fresh(cache) && fresh(uses)
      ensures Fresh(settings, Now())
    {
      hide TableInv, CoreOf, TableFrames, CacheInv, InitTable;
      st := settings;
      memory := new Byte[settings.geo.frames * settings.geo.frameSize];
      cache := new Slot[settings.slots](_ => Slot(0, 0, seq(settings.geo.frameSize, _ => 0)));
      uses := new int[settings.slots];
      counter := 1;
      touched := [];
      new;
      InitTableEntries();
      ClearCache();
      FreshInv(settings, Now());
    }
  }
}
