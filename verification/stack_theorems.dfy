/** What the CPU's stack placement keeps over every run of primitives. */
module StackTheorems {
  import opened Bytes
  import opened Pcb
  import opened Stack

  // ----- one definition -----

  lemma VarPlacesAppend(vars: seq<Variable>, v: Variable)
    ensures VarPlaces(vars + [v]) == VarPlaces(vars) + [v.place]
  {
    assert (vars + [v])[..|vars|] == vars;
  }

  lemma TopPlaces(s: seq<StackNode>, n: StackNode)
    requires s != []
    ensures Places(ReplaceTop(s, n)) == Places(s[..|s| - 1]) + n.args + VarPlaces(n.vars)
  {
    assert ReplaceTop(s, n)[..|s| - 1] == s[..|s| - 1];
  }

  /** A variable goes after everything; an argument goes before the variables of its
      frame. */
  lemma PutPlaces(s: seq<StackNode>, id: Byte, p: Position)
    requires s != []
    ensures var n := s[|s| - 1]; var ps := Places(s); var k := if IsDigit(id) then |ps| - |n.vars| else |ps|;
      && 0 <= k
      && Places(ReplaceTop(s, PutIn(n, id, p))) == ps[..k] + [p] + ps[k..]
  {
    hide Places, VarPlaces;
    var n := s[|s| - 1];
    TopPlaces(s, PutIn(n, id, p));
    TopPlaces(s, n);
    assert ReplaceTop(s, n) == s;
    VarPlacesAppend(n.vars, Variable(id, p));
    var below, v := Places(s[..|s| - 1]), VarPlaces(n.vars);
    if IsDigit(id) {
      assert below + (n.args + [p]) + v == (below + n.args) + [p] + v;
    } else {
      assert below + n.args + (v + [p]) == (below + n.args + v) + [p] + [];
    }
  }

  lemma BasedPlaces(s: seq<StackNode>)
    ensures Places(Based(s)) == Places(s) && Based(s) != []
    ensures LastPlace(Based(s)) == LastPlace(s)
  {
    if s == [] {
      assert [EMPTY_FRAME][..0] == [];
    }
  }

  lemma SlotInStack(c: Space, k: nat, p: Position)
    requires SpaceOk(c) && IsSlot(c, k, p) && k < Capacity(c)
    ensures InStackPages(c, p)
  {
    hide Capacity, PerPage;
    WordsFit(c, k);
    InStack(c, k);
  }

  lemma PackedSane(c: Space, s: seq<StackNode>)
    requires SpaceOk(c) && Packed(c, s)
    ensures Sane(c, s)
  {
    hide Places, IsSlot, Capacity, InStackPages;
    forall i | 0 <= i < |Places(s)|
      ensures InStackPages(c, Places(s)[i])
    {
      SlotInStack(c, i, Places(s)[i]);
    }
  }

  /** The frame a definition adds to. */
  function Top(s: seq<StackNode>): StackNode { Based(s)[|Based(s)| - 1] }

  /** The place a definition computes. */
  function NextPlace(c: Space, s: seq<StackNode>): Position
    requires SpaceOk(c) && Sane(c, s) && Define(c, s, 0).1.Defined?
  {
    LastIsLast(s);
    TotalFits(c);
    Position(NextPage(c, LastPlace(s)), NextOffset(c, LastPlace(s)), WORD)
  }

  /** What a definition does to the places. */
  lemma DefinePlaces(c: Space, s: seq<StackNode>, id: Byte)
    requires SpaceOk(c) && Sane(c, s)
    ensures var (t, outcome) := Define(c, s, id);
      && (outcome.Overflow? <==> NextPage(c, LastPlace(s)) >= c.codePages + c.stackPages)
      && (outcome.Overflow? ==> t == Based(s) && Places(t) == Places(s))
      && (outcome.Defined? ==>
            var ps, k := Places(s), if IsDigit(id) then |Places(s)| - |Top(s).vars| else |Places(s)|;
            && 0 <= k && Places(t) == ps[..k] + [NextPlace(c, s)] + ps[k..]
            && outcome.address == Address(c, NextPlace(c, s)))
  {
    hide Places, LastPlace, Sane;
    BasedPlaces(s);
    if Define(c, s, id).1.Defined? {
      PutPlaces(Based(s), id, NextPlace(c, s));
    }
  }

  /** Every word ever placed lies whole inside one stack page, whatever the program does. */
  lemma DefineSane(c: Space, s: seq<StackNode>, id: Byte)
    requires SpaceOk(c) && Sane(c, s)
    ensures Sane(c, Define(c, s, id).0)
  {
    hide Places, LastPlace, Define;
    DefinePlaces(c, s, id);
    LastIsLast(s);
  }

  function SlotAddress(c: Space, k: nat): int
    requires SpaceOk(c)
  {
    (c.codePages + k / PerPage(c)) * c.page + WORD * (k % PerPage(c))
  }

  /** From slots 0 .. n-1, the next place computed is slot n. */
  lemma NextIsSlot(c: Space, s: seq<StackNode>)
    requires SpaceOk(c) && Packed(c, s)
    ensures var n := |Places(s)|;
      && NextPage(c, LastPlace(s)) == c.codePages + n / PerPage(c)
      && NextOffset(c, LastPlace(s)) == WORD * (n % PerPage(c))
  {
    hide Places, LastPlace;
    LastIsLast(s);
    var n := |Places(s)|;
    if n > 0 {
      assert IsSlot(c, n - 1, Places(s)[n - 1]);
      NextDivMod(n - 1, PerPage(c));
      WordsFit(c, n - 1);
    }
  }

  /** An argument is defined where variables already are. */
  predicate ArgumentTooLate(s: seq<StackNode>, id: Byte) { IsDigit(id) && Top(s).vars != [] }

  /** With slots 0 .. n-1 taken, a definition takes slot n and gives its address; it
      overflows iff all the words of the stack pages are taken, and then changes no place.
      The slots stay packed iff the definition is not an argument after variables. */
  lemma DefineTakesNextSlot(c: Space, s: seq<StackNode>, id: Byte)
    requires SpaceOk(c) && Packed(c, s)
    ensures Sane(c, s)
    ensures var n := |Places(s)|; var (t, outcome) := Define(c, s, id);
      && (outcome.Overflow? <==> n == Capacity(c))
      && (outcome.Overflow? ==> Places(t) == Places(s))
      && (outcome.Defined? ==> outcome.address == SlotAddress(c, n))
      && (outcome.Defined? && !ArgumentTooLate(s, id) ==> |Places(t)| == n + 1 && Places(t)[..n] == Places(s))
      && (Packed(c, t) <==> outcome.Overflow? || !ArgumentTooLate(s, id))
  {
    hide Places, LastPlace, Define, IsSlot, Capacity, PerPage, NextPage, NextOffset;
    PackedSane(c, s);
    DefinePlaces(c, s, id);
    var n := |Places(s)|;
    NextSlot(c, s);
    var (t, outcome) := Define(c, s, id);
    if outcome.Defined? && ArgumentTooLate(s, id) {
      var k := n - |Top(s).vars|;
      assert Places(t)[k] == NextPlace(c, s);
      OneSlotOnly(c, k, n, NextPlace(c, s));
    }
  }

  lemma NextSlot(c: Space, s: seq<StackNode>)
    requires SpaceOk(c) && Packed(c, s) && Sane(c, s)
    ensures var n := |Places(s)|;
      && (NextPage(c, LastPlace(s)) >= c.codePages + c.stackPages <==> n == Capacity(c))
      && (n < Capacity(c) ==>
            && Define(c, s, 0).1.Defined? && IsSlot(c, n, NextPlace(c, s))
            && Address(c, NextPlace(c, s)) == SlotAddress(c, n))
  {
    hide Places, LastPlace, Sane;
    NextIsSlot(c, s);
    InStack(c, |Places(s)|);
  }

  lemma OneSlotOnly(c: Space, j: nat, k: nat, p: Position)
    requires SpaceOk(c) && j < k && IsSlot(c, k, p)
    ensures !IsSlot(c, j, p)
  {
    if IsSlot(c, j, p) {
      SlotsApart(c, j, k, p, p);
    }
  }

  /** After a definition, the next one gets a word of its own iff the first was not an
      argument after variables; otherwise both names share one word. */
  lemma NextWordIsFresh(c: Space, s: seq<StackNode>, id: Byte, later: Byte)
    requires SpaceOk(c) && Packed(c, s) && |Places(s)| + 1 < Capacity(c)
    ensures Sane(c, s) && Sane(c, Define(c, s, id).0)
    ensures var (t, first) := Define(c, s, id); var second := Define(c, t, later).1;
      && first.Defined? && second.Defined?
      && (second.address >= first.address + WORD <==> !ArgumentTooLate(s, id))
      && (second.address == first.address <==> ArgumentTooLate(s, id))
  {
    hide Places, LastPlace, Define, IsSlot, Capacity, PerPage, NextPage, NextOffset, SlotAddress;
    DefineTakesNextSlot(c, s, id);
    DefineSane(c, s, id);
    var n := |Places(s)|;
    var (t, first) := Define(c, s, id);
    if ArgumentTooLate(s, id) {
      DefinePlaces(c, s, id);
      DefinePlaces(c, t, later);
      NextSlot(c, s);
      LastIsLast(s);
      LastIsLast(t);
      TopHasVars(s);
      SameNext(c, s, t);
    } else {
      DefineTakesNextSlot(c, t, later);
      AddressesGrow(c, n, n + 1);
    }
  }

  /** Such sharing does come about: a program that defines a variable, then an argument,
      then another variable, from an empty stack on. */
  lemma WordShared(c: Space, late: Byte)
    requires SpaceOk(c) && Capacity(c) >= 3 && IsDigit(late)
    ensures Sane(c, []) && Sane(c, Define(c, [], 'a' as int).0)
    ensures var s := Define(c, [], 'a' as int).0;
      && Packed(c, s) && Sane(c, Define(c, s, late).0)
      && Define(c, s, late).1.Defined?
      && Define(c, Define(c, s, late).0, 'b' as int).1 == Define(c, s, late).1
  {
    assert Packed(c, []) && !IsDigit('a' as int);
    DefineTakesNextSlot(c, [], 'a' as int);
    var s := Define(c, [], 'a' as int).0;
    assert Top(s).vars != [];
    hide Define, Places, Packed;
    NextWordIsFresh(c, s, late, 'b' as int);
  }

  /** The next place depends only on the last one. */
  lemma SameNext(c: Space, s: seq<StackNode>, t: seq<StackNode>)
    requires SpaceOk(c) && Sane(c, s) && Sane(c, t) && LastPlace(s) == LastPlace(t)
    requires Define(c, s, 0).1.Defined?
    ensures Define(c, t, 0).1.Defined? && NextPlace(c, t) == NextPlace(c, s)
  {
    hide Places, LastPlace;
  }

  lemma TopHasVars(s: seq<StackNode>)
    ensures |Top(s).vars| <= |Places(s)|
  {
  }

  lemma AddressesGrow(c: Space, j: nat, k: nat)
    requires SpaceOk(c) && j < k
    ensures SlotAddress(c, j) + WORD <= SlotAddress(c, k)
  {
    var q := PerPage(c);
    WordsFit(c, j);
    DivGrows(j, k, q);
    var x, y := c.codePages + j / q, c.codePages + k / q;
    if x < y {
      Grows(c.page, x + 1, y);
      assert c.page * (x + 1) == c.page * x + c.page;
    } else {
      assert j == q * (j / q) + j % q && k == q * (k / q) + k % q;
    }
  }

  // ----- looking names up -----

  lemma LastNamedAppend(vars: seq<Variable>, v: Variable, id: Byte)
    ensures LastNamed(vars + [v], id) == if v.id == id then Some(v.place) else LastNamed(vars, id)
  {
    assert (vars + [v])[..|vars|] == vars;
  }

  /** Digits count the arguments from 0, so the argument defined next is called by the
      number of those before it. */
  predicate NamesIt(s: seq<StackNode>, id: Byte) {
    !IsDigit(id) || id - '0' as int == |Top(s).args|
  }

  /** Looking a name up right after defining it gives the word just defined iff the name is
      a variable's, or the digit is the argument's position. */
  lemma LookupAfterDefine(c: Space, s: seq<StackNode>, id: Byte)
    requires SpaceOk(c) && Packed(c, s) && |Places(s)| < Capacity(c)
    ensures Sane(c, s) && Define(c, s, id).0 != [] && Define(c, s, id).1.Defined?
    ensures var (t, outcome) := Define(c, s, id);
      (Lookup(t, id).Some? && Address(c, Lookup(t, id).value) == outcome.address) <==> NamesIt(s, id)
  {
    hide Places, LastPlace, IsSlot, Capacity, PerPage, NextPage, NextOffset, SlotAddress;
    DefineTakesNextSlot(c, s, id);
    var (t, outcome) := Define(c, s, id);
    var n, p := Top(s), t[|t| - 1];
    if IsDigit(id) {
      var d := id - '0' as int;
      if d < |n.args| {
        ArgumentIsPlaced(s, d);
        var k :| 0 <= k < |Places(s)| && Places(s)[k] == n.args[d];
        SlotIsAt(c, k, n.args[d]);
        AddressesGrow(c, k, |Places(s)|);
      }
    } else {
      LastNamedAppend(n.vars, p.vars[|n.vars|], id);
    }
  }

  lemma ArgumentIsPlaced(s: seq<StackNode>, d: nat)
    requires d < |Top(s).args|
    ensures exists k :: 0 <= k < |Places(s)| && Places(s)[k] == Top(s).args[d]
  {
    var k := |Places(s[..|s| - 1])| + d;
    assert Places(s)[k] == Top(s).args[d];
  }

  lemma SlotIsAt(c: Space, k: nat, p: Position)
    requires SpaceOk(c) && IsSlot(c, k, p)
    ensures Address(c, p) == SlotAddress(c, k)
  {
  }

  /** A definition changes what no other name of the frame means. */
  lemma LookupOfOthers(c: Space, s: seq<StackNode>, id: Byte, other: Byte)
    requires SpaceOk(c) && Sane(c, s) && s != [] && Lookup(s, other).Some?
    requires other != id || IsDigit(id)
    ensures Define(c, s, id).0 != [] && Lookup(Define(c, s, id).0, other) == Lookup(s, other)
  {
    hide Places, LastPlace, NextPage, NextOffset;
    var (t, outcome) := Define(c, s, id);
    if outcome.Defined? && !IsDigit(id) {
      var n, m := s[|s| - 1], t[|t| - 1];
      LastNamedAppend(n.vars, m.vars[|n.vars|], other);
    }
  }

  /** A name that is no digit is found iff the frame has a variable of that name, and means
      the last of them. */
  lemma {:induction false} NamedIff(vars: seq<Variable>, id: Byte)
    ensures LastNamed(vars, id).Some? <==> exists v <- vars :: v.id == id
    ensures forall i :: 0 <= i < |vars| && vars[i].id == id && (forall j :: i < j < |vars| ==> vars[j].id != id)
              ==> LastNamed(vars, id) == Some(vars[i].place)
  {
    if vars != [] {
      var front, v := vars[..|vars| - 1], vars[|vars| - 1];
      NamedIff(front, id);
      assert vars == front + [v];
      if v.id == id {
        assert v in vars;
      } else {
        assert forall w <- vars :: w.id == id ==> w in front;
        forall i | 0 <= i < |vars| && vars[i].id == id && (forall j :: i < j < |vars| ==> vars[j].id != id)
          ensures LastNamed(vars, id) == Some(vars[i].place)
        {
          assert front[i] == vars[i] && forall j :: i < j < |front| ==> front[j].id != id;
        }
      }
    }
  }

  /** Which names of the topmost frame are found, and where: a variable iff one of that name
      was defined, at the last of them; an argument iff there are that many. */
  lemma LookupIff(s: seq<StackNode>, id: Byte)
    requires s != []
    ensures var n := s[|s| - 1];
      if '0' as int <= id <= '9' as int then
        && (Lookup(s, id).Some? <==> id - '0' as int < |n.args|)
        && (Lookup(s, id).Some? ==> Lookup(s, id) == Some(n.args[id - '0' as int]))
      else
        && (Lookup(s, id).Some? <==> exists v <- n.vars :: v.id == id)
        && forall i :: 0 <= i < |n.vars| && n.vars[i].id == id && (forall j :: i < j < |n.vars| ==> n.vars[j].id != id)
             ==> Lookup(s, id) == Some(n.vars[i].place)
  {
    NamedIff(s[|s| - 1].vars, id);
  }

  /** A definition changes nothing but the topmost frame, and of that neither the return data
      nor what was there: one argument or one variable of the name given comes last. An
      overflow changes nothing but that an empty stack has its first frame. */
  lemma DefineAdds(c: Space, s: seq<StackNode>, id: Byte)
    requires SpaceOk(c) && Sane(c, s)
    ensures var (t, outcome) := Define(c, s, id); var n := Top(s);
      && (outcome.Overflow? ==> t == if s == [] then [StackNode([], [], 0, Position(0, 0, 0))] else s)
      && (outcome.Defined? ==>
            && |t| == (if s == [] then 1 else |s|) && (forall i :: 0 <= i < |t| - 1 ==> t[i] == s[i])
            && t[|t| - 1].retPos == n.retPos && t[|t| - 1].retVar == n.retVar
            && (if '0' as int <= id <= '9' as int
                then t[|t| - 1].vars == n.vars && |t[|t| - 1].args| == |n.args| + 1 && n.args <= t[|t| - 1].args
                     && Address(c, t[|t| - 1].args[|n.args|]) == outcome.address
                else t[|t| - 1].args == n.args && |t[|t| - 1].vars| == |n.vars| + 1 && n.vars <= t[|t| - 1].vars
                     && t[|t| - 1].vars[|n.vars|].id == id
                     && Address(c, t[|t| - 1].vars[|n.vars|].place) == outcome.address))
  {
    hide Places, LastPlace, NextPage, NextOffset, Sane;
  }

  // ----- interrupts and the program counter -----

  /** Which step raises which interrupt: a definition with every word taken, a jump or a call
      to a label that is not there; no other step raises or withdraws one. */
  lemma StepInterrupt(c: Space, m: Machine, op: Op)
    requires SpaceOk(c) && Packed(c, m.stack) && Sane(c, m.stack)
    requires op.OpReturn? ==> m.stack != []
    ensures var n, i := |Places(m.stack)|, Step(c, m, op).interrupt;
      match op
      case OpDefine(_) => i == if n == Capacity(c) then StackOverflow else m.interrupt
      case OpCall(target, _) => i == if target.None? then BadAddress else m.interrupt
      case OpJump(target) => i == if target.None? then BadAddress else m.interrupt
      case _ => i == m.interrupt
  {
    hide Places, LastPlace, Define, IsSlot, Capacity, PerPage, NextPage, NextOffset, Sane;
    if op.OpDefine? {
      DefineTakesNextSlot(c, m.stack, op.id);
    }
  }

  /** u_int32_t and int hold the same bits, whichever way programCounter is copied. */
  lemma SameBits(x: Uint32, y: Int32)
    ensures EncodeInt(AsInt(x)) == EncodeUint(x)
    ensures EncodeUint(AsUint(y)) == EncodeInt(y)
  {
    hide EncodeNat;
    AsUintIs(y);
  }

  lemma AsUintIs(x: int)
    ensures 0 <= x < TWO_TO_THE_32 ==> AsUint(x) == x
    ensures -TWO_TO_THE_32 <= x < 0 ==> AsUint(x) == x + TWO_TO_THE_32
    ensures TWO_TO_THE_32 <= x < 2 * TWO_TO_THE_32 ==> AsUint(x) == x - TWO_TO_THE_32
  {
  }

  /** Where programCounter goes: on to the next instruction at the end of each, wrapping
      after the last number there is; one before the label of a jump or a call; nowhere when
      the label is not there or a name is defined. */
  lemma StepCounter(c: Space, m: Machine, op: Op)
    requires SpaceOk(c) && Sane(c, m.stack)
    requires op.OpReturn? ==> m.stack != []
    ensures var t := Step(c, m, op);
      match op
      case OpNext => t.pc == (if m.pc == 0xFFFF_FFFF then 0 else m.pc + 1) && t.stack == m.stack
      case OpJump(Some(i)) => t.pc == (if i == 0 then 0xFFFF_FFFF else i - 1) && t.stack == m.stack
      case OpCall(Some(i), _) => t.pc == (if i == 0 then 0xFFFF_FFFF else i - 1)
      case OpReturn =>
        EncodeUint(t.pc) == EncodeInt(m.stack[|m.stack| - 1].retPos) && t.stack == m.stack[..|m.stack| - 1]
      case OpJump(None) => t.pc == m.pc && t.stack == m.stack
      case _ => t.pc == m.pc
  {
    hide Places, Define, Sane, CallFrame, AsUint, EncodeUint, EncodeInt;
    match op
    case OpNext => AsUintIs(m.pc + 1);
    case OpJump(Some(i)) => AsUintIs(i - 1);
    case OpCall(Some(i), _) => AsUintIs(i - 1);
    case OpReturn => SameBits(0, m.stack[|m.stack| - 1].retPos);
    case _ =>
  }

  /** A call pushes an empty frame with its return data, label or no label. */
  lemma CallPushes(c: Space, m: Machine, target: Option<Uint32>, result: Uint32)
    requires SpaceOk(c) && Sane(c, m.stack)
    ensures var t := Step(c, m, OpCall(target, result)).stack;
      && |t| == |m.stack| + 1 && t[..|m.stack|] == m.stack
      && t[|m.stack|].args == [] && t[|m.stack|].vars == []
      && EncodeInt(t[|m.stack|].retPos) == EncodeUint(m.pc)
      && t[|m.stack|].retVar.size == WORD && 0 <= t[|m.stack|].retVar.offset < c.page
      && Address(c, t[|m.stack|].retVar) == result
  {
    hide Places, Sane, AsInt, EncodeInt, EncodeUint;
    SameBits(m.pc, 0);
    Divided(result, c.page);
  }

  // ----- runs -----

  /** Popping an empty stack is outside the model; every other primitive can come at any
      time, also after an interrupt was raised. */
  ghost predicate Legal(c: Space, m: Machine, ops: seq<Op>)
    requires SpaceOk(c) && Sane(c, m.stack)
    decreases |ops|
  {
    ops == [] || ((ops[0].OpReturn? ==> m.stack != [])
                  && (StepSane(c, m, ops[0]); Legal(c, Step(c, m, ops[0]), ops[1..])))
  }

  /** The machine after a run. In every state of it, each argument and variable is a whole
      word inside one stack page. */
  ghost function After(c: Space, m: Machine, ops: seq<Op>): (r: Machine)
    requires SpaceOk(c) && Sane(c, m.stack) && Legal(c, m, ops)
    ensures Sane(c, r.stack)
    decreases |ops|
  {
    if ops == [] then m else (StepSane(c, m, ops[0]); After(c, Step(c, m, ops[0]), ops[1..]))
  }

  lemma PushPlaces(s: seq<StackNode>, n: StackNode)
    requires n.args == [] && n.vars == []
    ensures Places(s + [n]) == Places(s)
  {
    assert (s + [n])[..|s|] == s;
  }

  lemma PopPlaces(s: seq<StackNode>)
    requires s != []
    ensures Places(s[..|s| - 1]) <= Places(s)
  {
  }

  lemma StepSane(c: Space, m: Machine, op: Op)
    requires SpaceOk(c) && Sane(c, m.stack)
    requires op.OpReturn? ==> m.stack != []
    ensures Sane(c, Step(c, m, op).stack)
  {
    hide Places, Define;
    match op
    case OpDefine(id) => DefineSane(c, m.stack, id);
    case OpCall(target, result) => PushPlaces(m.stack, CallFrame(c, m.pc, result));
    case OpReturn => PopPlaces(m.stack);
    case OpJump(target) =>
    case OpNext =>
  }

  /** No argument is defined in a frame that already has variables. */
  ghost predicate ArgumentsFirst(c: Space, m: Machine, ops: seq<Op>)
    requires SpaceOk(c) && Sane(c, m.stack) && Legal(c, m, ops)
    decreases |ops|
  {
    ops == [] ||
    (StepSane(c, m, ops[0]);
     && (ops[0].OpDefine? ==> !ArgumentTooLate(m.stack, ops[0].id))
     && ArgumentsFirst(c, Step(c, m, ops[0]), ops[1..]))
  }

  lemma StepPacked(c: Space, m: Machine, op: Op)
    requires SpaceOk(c) && Packed(c, m.stack) && Sane(c, m.stack)
    requires op.OpReturn? ==> m.stack != []
    requires op.OpDefine? ==> !ArgumentTooLate(m.stack, op.id)
    ensures Packed(c, Step(c, m, op).stack)
  {
    hide Places, Define, IsSlot, Capacity;
    match op
    case OpDefine(id) => DefineTakesNextSlot(c, m.stack, id);
    case OpCall(target, result) => PushPlaces(m.stack, CallFrame(c, m.pc, result));
    case OpReturn => PopPlaces(m.stack);
    case OpJump(target) =>
    case OpNext =>
  }

  /** Over every run that defines arguments before variables, the live arguments and
      variables of all frames are exactly the slots 0 .. n-1. */
  lemma {:induction false} RunPacked(c: Space, m: Machine, ops: seq<Op>)
    requires SpaceOk(c) && Packed(c, m.stack) && Sane(c, m.stack) && Legal(c, m, ops)
    requires ArgumentsFirst(c, m, ops)
    ensures Packed(c, After(c, m, ops).stack)
    decreases |ops|
  {
    hide Packed, Sane, ArgumentTooLate;
    if ops != [] {
      StepSane(c, m, ops[0]);
      StepPacked(c, m, ops[0]);
      RunPacked(c, Step(c, m, ops[0]), ops[1..]);
    }
  }

  /** No two of them share a byte. */
  lemma PlacesApart(c: Space, m: Machine, ops: seq<Op>, i: nat, j: nat)
    requires SpaceOk(c) && Packed(c, m.stack) && Sane(c, m.stack) && Legal(c, m, ops)
    requires ArgumentsFirst(c, m, ops)
    requires i < j < |Places(After(c, m, ops).stack)|
    ensures var ps := Places(After(c, m, ops).stack); Address(c, ps[i]) + WORD <= Address(c, ps[j])
  {
    RunPacked(c, m, ops);
    hide Places, IsSlot, After, ArgumentsFirst, Legal, Sane;
    var ps := Places(After(c, m, ops).stack);
    SlotsApart(c, i, j, ps[i], ps[j]);
  }

  // ----- calls -----

  /** Calls and returns match, and the run never returns from below where it started. */
  predicate Balanced(ops: seq<Op>, depth: nat) {
    if ops == [] then depth == 0
    else if ops[0].OpCall? then Balanced(ops[1..], depth + 1)
    else if ops[0].OpReturn? then depth > 0 && Balanced(ops[1..], depth - 1)
    else Balanced(ops[1..], depth)
  }

  /** The frames under the call, and the call frame at that height, whose return data are
      still those of the call. */
  ghost predicate Holds(s: seq<StackNode>, base: seq<StackNode>, f: StackNode, depth: nat) {
    && |s| == |base| + 1 + depth && s[..|base|] == base
    && s[|base|].retPos == f.retPos && s[|base|].retVar == f.retVar
  }

  lemma StepHolds(c: Space, m: Machine, op: Op, base: seq<StackNode>, f: StackNode, depth: nat)
    requires SpaceOk(c) && Sane(c, m.stack) && Holds(m.stack, base, f, depth)
    requires op.OpReturn? ==> depth > 0
    ensures Holds(Step(c, m, op).stack, base, f,
                  if op.OpCall? then depth + 1 else if op.OpReturn? then depth - 1 else depth)
  {
    hide Places, LastPlace, NextPage, NextOffset, Sane;
  }

  lemma {:induction false} BodyHolds(c: Space, m: Machine, ops: seq<Op>, base: seq<StackNode>, f: StackNode, depth: nat)
    requires SpaceOk(c) && Sane(c, m.stack) && Holds(m.stack, base, f, depth) && Balanced(ops, depth)
    ensures Legal(c, m, ops) && Holds(After(c, m, ops).stack, base, f, 0)
    decreases |ops|
  {
    hide Sane, Step, Holds;
    if ops != [] {
      HoldsSomething(m.stack, base, f, depth);
      StepSane(c, m, ops[0]);
      StepHolds(c, m, ops[0], base, f, depth);
      BodyHolds(c, Step(c, m, ops[0]), ops[1..], base, f,
                if ops[0].OpCall? then depth + 1 else if ops[0].OpReturn? then depth - 1 else depth);
    }
  }

  lemma HoldsSomething(s: seq<StackNode>, base: seq<StackNode>, f: StackNode, depth: nat)
    requires Holds(s, base, f, depth)
    ensures s != []
  {
  }

  /** llamarConRetorno, any balanced body, retornar: the frames and programCounter are back
      to what they were at the call, whatever the body defined, called and jumped to, and
      the result goes to the address the call named. */
  lemma CallReturns(c: Space, m: Machine, target: Option<Uint32>, result: Uint32, body: seq<Op>)
    requires SpaceOk(c) && Sane(c, m.stack) && Balanced(body, 0)
    ensures Sane(c, Step(c, m, OpCall(target, result)).stack)
    ensures Legal(c, Step(c, m, OpCall(target, result)), body)
    ensures var b := After(c, Step(c, m, OpCall(target, result)), body);
      && b.stack != []
      && Address(c, b.stack[|b.stack| - 1].retVar) == result
      && Step(c, b, OpReturn).stack == m.stack
      && Step(c, b, OpReturn).pc == m.pc
  {
    hide Places, Sane, After, Legal, Balanced;
    StepSane(c, m, OpCall(target, result));
    var f := CallFrame(c, m.pc, result);
    BodyHolds(c, Step(c, m, OpCall(target, result)), body, m.stack, f, 0);
    Divided(result, c.page);
  }

  /** Jumps land on their label, label 0 included: the counter wraps one below it and the
      end of the jumping instruction brings it back up. */
  lemma JumpLands(c: Space, m: Machine, i: Uint32, result: Uint32)
    requires SpaceOk(c) && Sane(c, m.stack)
    ensures Step(c, Step(c, m, OpJump(Some(i))), OpNext).pc == i
    ensures Sane(c, Step(c, m, OpCall(Some(i), result)).stack)
    ensures Step(c, Step(c, m, OpCall(Some(i), result)), OpNext).pc == i
  {
    StepSane(c, m, OpCall(Some(i), result));
  }
}
