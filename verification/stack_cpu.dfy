/** The primitives as the CPU runs them, on the process it holds. */
module StackCpu {
  import opened Bytes
  import opened Pcb
  import opened Stack
  import opened StackTheorems
  import opened MemorySpec
  import opened MemoryServer

  lemma {:induction false} LastPlaceBelow(s: seq<StackNode>, k: nat)
    requires k <= |s| && forall i :: k <= i < |s| ==> s[i].args == [] && s[i].vars == []
    ensures LastPlace(s) == LastPlace(s[..k])
  {
    if k < |s| {
      LastPlaceBelow(s[..|s| - 1], k);
      assert s[..|s| - 1][..k] == s[..k];
    } else {
      assert s[..k] == s;
    }
  }

  class Cpu {
    const c: Space
    var stack: seq<StackNode>     // pcb_actual->indiceStack
    var pc: Uint32                // pcb_actual->programCounter
    var interrupt: Interrupt      // interrupcion

    function Now(): Machine
      reads this`stack, this`pc, this`interrupt
    {
      Machine(stack, pc, interrupt)
    }

    /** A process just received from the kernel. */
    constructor (space: Space, frames: seq<StackNode>, counter: Uint32)
      ensures c == space && Now() == Machine(frames, counter, NoInterrupt)
    {
      c, stack, pc, interrupt := space, frames, counter, NoInterrupt;
    }

    /** The loop over the frames from the top down; it leaves by setting its own index. */
    method FindLast() returns (last: Option<Position>)
      ensures last == LastPlace(stack)
    {
      last := None;
      var i := |stack| - 1;
      while i >= 0
        invariant -2 <= i < |stack|
        invariant i == -2 ==> last == LastPlace(stack)
        invariant i >= -1 ==> last == None
        invariant i >= -1 ==> forall k :: i < k < |stack| ==> stack[k].args == [] && stack[k].vars == []
      {
        var n := stack[i];
        LastPlaceBelow(stack, i + 1);
        if |n.vars| != 0 {
          last := Some(n.vars[|n.vars| - 1].place);
          i := -1;
        } else if |n.args| != 0 {
          last := Some(n.args[|n.args| - 1]);
          i := -1;
        }
        i := i - 1;
      }
      if i == -1 {
        LastPlaceBelow(stack, 0);
      }
    }

    /** definirVariable: with the words 0 to n-1 of the stack taken, the name gets word n; when
        there is none the interrupt is raised and the answer is 0. */
    method DefineVariable(id: Byte) returns (address: int)
      requires SpaceOk(c) && Sane(c, stack)
      modifies this`stack, this`interrupt
      ensures Now() == Step(c, old(Now()), OpDefine(id))
      ensures address == match Define(c, old(stack), id).1 case Overflow => 0 case Defined(a) => a
      ensures Packed(c, old(stack)) ==>
                var n := |Places(old(stack))|;
                && interrupt == (if n == Capacity(c) then StackOverflow else old(interrupt))
                && address == (if n == Capacity(c) then 0 else SlotAddress(c, n))
    {
      DefineRaises(c, Now(), id);
      hide Places, Sane, Packed, Capacity, SlotAddress, Step, Define;
      address := DefineName(id);
    }

    method DefineName(id: Byte) returns (address: int)
      requires SpaceOk(c) && Sane(c, stack)
      modifies this`stack, this`interrupt
      ensures Now() == Step(c, old(Now()), OpDefine(id))
      ensures address == match Define(c, old(stack), id).1 case Overflow => 0 case Defined(a) => a
    {
      hide Places, LastPlace, Sane;
      LastIsLast(stack);
      BasedPlaces(stack);
      if |stack| == 0 {
        stack := [EMPTY_FRAME];
      }
      var last := FindLast();
      var total := c.stackPages + c.codePages;
      var page, offset: int;
      match last {
        case None =>
          page, offset := total - c.stackPages, 0;
        case Some(p) =>
          if p.offset + p.size + WORD > c.page {
            page, offset := p.page + 1, 0;
          } else {
            page, offset := p.page, p.offset + p.size;
          }
      }
      if page >= total {
        interrupt := StackOverflow;
        return 0;
      }
      PlaceFits(c, old(stack), page, offset);
      var place := Position(page, offset, WORD);
      var n := stack[|stack| - 1];
      if '0' as int <= id <= '9' as int {
        n := n.(args := n.args + [place]);
      } else {
        n := n.(vars := n.vars + [Variable(id, place)]);
      }
      stack := stack[..|stack| - 1] + [n];
      address := page * c.page + offset;
    }

    /** obtenerPosicionVariable: the address of the last variable of that name, or of the
        argument with that number; for any other name -1, and the interrupt is raised. */
    method FindVariable(id: Byte) returns (address: int)
      requires stack != []
      modifies this`interrupt
      ensures var n := stack[|stack| - 1];
        var digit := '0' as int <= id <= '9' as int;
        var known := if digit then id - '0' as int < |n.args| else exists v <- n.vars :: v.id == id;
        && interrupt == (if known then old(interrupt) else BadAddress)
        && (!known ==> address == -1)
        && (known && digit ==> address == Address(c, n.args[id - '0' as int]))
        && (forall i :: 0 <= i < |n.vars| && !digit && n.vars[i].id == id
                        && (forall j :: i < j < |n.vars| ==> n.vars[j].id != id)
                        ==> address == Address(c, n.vars[i].place))
    {
      LookupIff(stack, id);
      var n := stack[|stack| - 1];
      var found: Option<Position> := None;
      if '0' as int <= id <= '9' as int {
        var i := id - '0' as int;
        found := if i < |n.args| then Some(n.args[i]) else None;
      } else {
        var i := 0;
        while i < |n.vars|
          invariant 0 <= i <= |n.vars|
          invariant found == LastNamed(n.vars[..i], id) && interrupt == old(interrupt)
        {
          assert n.vars[..i + 1] == n.vars[..i] + [n.vars[i]];
          LastNamedAppend(n.vars[..i], n.vars[i], id);
          var v := n.vars[i];
          if v.id == id {
            found := Some(v.place);
          }
          i := i + 1;
        }
        assert n.vars[..i] == n.vars;
      }
      if found.None? {
        interrupt := BadAddress;
        return -1;
      }
      address := found.value.page * c.page + found.value.offset;
    }

    /** llamarConRetorno; the label lookup belongs to the parser library. */
    method CallWithReturn(target: Option<Uint32>, result: Uint32)
      requires SpaceOk(c) && Sane(c, stack)
      modifies this
      ensures Now() == Step(c, old(Now()), OpCall(target, result))
    {
      Divided(result, c.page);
      var page := result / c.page;
      var offset := result - page * c.page;
      var n := StackNode([], [], AsInt(pc), Position(page, offset, WORD));
      stack := stack + [n];
      match target {
        case None => interrupt := BadAddress;
        case Some(i) => pc := AsUint(i - 1);
      }
    }

    /** retornar: the frame is taken off, and the four bytes of the result go to the place
        the call named, through the memory server. */
    method Return(m: Memory, pid: int, word: seq<Byte>) returns (code: int)
      requires SpaceOk(c) && Sane(c, stack) && stack != []
      requires m.Valid() && m.st.geo.frameSize == c.page && pid >= 1 && |word| == WORD
      requires var p := stack[|stack| - 1].retVar; p.page >= 0 && 0 <= p.offset && p.offset + WORD <= c.page
      modifies this, m, m.memory, m.cache, m.uses
      ensures Now() == Step(c, old(Now()), OpReturn)
      ensures var p := old(stack)[|old(stack)| - 1].retVar;
        m.Valid() && (m.Now(), code) == Write(m.st, old(m.Now()), pid, p.page, p.offset, word)
    {
      hide Sane, Places, Write, CoreInv, CacheInv;
      var n := stack[|stack| - 1];
      stack := stack[..|stack| - 1];
      code := m.StoreBytes(pid, n.retVar.page, n.retVar.offset, word);
      pc := AsUint(n.retPos);
    }
  }

  lemma DefineRaises(c: Space, m: Machine, id: Byte)
    requires SpaceOk(c) && Sane(c, m.stack)
    ensures Packed(c, m.stack) ==>
              var n := |Places(m.stack)|;
              && Step(c, m, OpDefine(id)).interrupt == (if n == Capacity(c) then StackOverflow else m.interrupt)
              && Define(c, m.stack, id).1 == if n == Capacity(c) then Overflow else Defined(SlotAddress(c, n))
  {
    hide Places, Sane, Packed, Capacity, SlotAddress, Step, Define;
    if Packed(c, m.stack) {
      StepInterrupt(c, m, OpDefine(id));
      DefineTakesNextSlot(c, m.stack, id);
    }
  }

  lemma PlaceFits(c: Space, s: seq<StackNode>, page: int, offset: int)
    requires SpaceOk(c) && Sane(c, s)
    requires page == NextPage(c, LastPlace(s)) < c.codePages + c.stackPages
    requires offset == NextOffset(c, LastPlace(s))
    ensures IsInt(page) && IsInt(offset)
  {
    LastIsLast(s);
    TotalFits(c);
  }
}
