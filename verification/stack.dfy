/** Where the CPU puts the variables and arguments of an ANSISOP program: slots of four
    bytes, one after the other, in the stack pages that follow the code. */
module Stack {
  import opened Bytes
  import opened Pcb

  const WORD := 4

  /** config_paginaSize, config_stackSize and the process's cantidadPaginasCodigo. */
  datatype Space = Space(page: nat, stackPages: nat, codePages: nat)

  /** Pages hold a word, and every address of the process is an int. */
  predicate SpaceOk(c: Space) {
    WORD <= c.page <= 0x7FFF_FFFF && (c.codePages + c.stackPages) * c.page <= 0x7FFF_FFFF
  }

  // ----- slots -----

  function PerPage(c: Space): nat { c.page / WORD }

  function Capacity(c: Space): nat { c.stackPages * PerPage(c) }

  predicate IsSlot(c: Space, k: nat, p: Position)
    requires SpaceOk(c)
  {
    && p.page == c.codePages + k / PerPage(c)
    && p.offset == WORD * (k % PerPage(c))
    && p.size == WORD
  }

  function Address(c: Space, p: Position): int { p.page * c.page + p.offset }

  lemma DivGrows(j: nat, k: nat, q: nat)
    requires j <= k && q > 0
    ensures j / q <= k / q
  {
    Multiples(q, j / q - k / q);
    assert q * (j / q - k / q) == q * (j / q) - q * (k / q) == (j - j % q) - (k - k % q);
  }

  /** A slot lies inside one page, in the stack part of the process as long as there is
      capacity, and slots further on lie further on, past its four bytes. */
  lemma SlotsApart(c: Space, j: nat, k: nat, p: Position, r: Position)
    requires SpaceOk(c) && j < k && IsSlot(c, j, p) && IsSlot(c, k, r)
    ensures p.offset + WORD <= c.page && r.offset + WORD <= c.page
    ensures k < Capacity(c) <==> r.page < c.codePages + c.stackPages
    ensures Address(c, p) + WORD <= Address(c, r)
  {
    var q := PerPage(c);
    WordsFit(c, j);
    WordsFit(c, k);
    DivGrows(j, k, q);
    if j / q < k / q {
      Grows(c.page, p.page + 1, r.page);
      assert c.page * (p.page + 1) == c.page * p.page + c.page;
    } else {
      assert j == q * (j / q) + j % q && k == q * (k / q) + k % q;
    }
    InStack(c, k);
  }

  lemma WordsFit(c: Space, k: nat)
    requires SpaceOk(c)
    ensures 0 <= k % PerPage(c) && WORD * (k % PerPage(c)) + WORD <= c.page
    ensures WORD * (k % PerPage(c)) + 2 * WORD > c.page <==> k % PerPage(c) == PerPage(c) - 1
  {
    var q := PerPage(c);
    assert WORD * q <= c.page < WORD * (q + 1);
  }

  lemma Grows(a: nat, x: int, y: int)
    requires x <= y
    ensures a * x <= a * y
  {
  }

  lemma InStack(c: Space, k: nat)
    requires SpaceOk(c)
    ensures 0 <= k / PerPage(c)
    ensures k < Capacity(c) <==> c.codePages + k / PerPage(c) < c.codePages + c.stackPages
  {
    Below(k, PerPage(c), c.stackPages);
  }

  lemma Below(k: nat, q: nat, n: nat)
    requires q > 0
    ensures 0 <= k / q
    ensures k < n * q <==> k / q < n
  {
    var d := k / q;
    assert k == q * d + k % q;
    if d < n {
      Grows(q, d + 1, n);
      MultipleStep(q, d);
    } else {
      Grows(q, n, d);
    }
  }

  // ----- the stack index -----

  function VarPlaces(vars: seq<Variable>): (r: seq<Position>)
    ensures |r| == |vars|
    ensures forall i :: 0 <= i < |vars| ==> r[i] == vars[i].place
  {
    if vars == [] then [] else VarPlaces(vars[..|vars| - 1]) + [vars[|vars| - 1].place]
  }

  /** Every argument and variable, oldest frame first. */
  function Places(s: seq<StackNode>): seq<Position> {
    if s == [] then []
    else
      var n := s[|s| - 1];
      Places(s[..|s| - 1]) + n.args + VarPlaces(n.vars)
  }

  /** The live arguments and variables take the slots 0, 1, 2, ... in that order. */
  predicate Packed(c: Space, s: seq<StackNode>)
    requires SpaceOk(c)
  {
    var ps := Places(s);
    && |ps| <= Capacity(c)
    && forall k :: 0 <= k < |ps| ==> IsSlot(c, k, ps[k])
  }

  /** The search at the top of definirVariable: the last variable, or else the last
      argument, of the topmost frame that has any. */
  function LastPlace(s: seq<StackNode>): Option<Position> {
    if s == [] then None
    else
      var n := s[|s| - 1];
      if n.vars != [] then Some(n.vars[|n.vars| - 1].place)
      else if n.args != [] then Some(n.args[|n.args| - 1])
      else LastPlace(s[..|s| - 1])
  }

  /** Where the next word goes, before the check against the end of the stack. */
  function NextPage(c: Space, last: Option<Position>): int {
    match last
    case None => c.codePages
    case Some(p) => if p.offset + p.size + WORD > c.page then p.page + 1 else p.page
  }

  function NextOffset(c: Space, last: Option<Position>): int {
    match last
    case None => 0
    case Some(p) => if p.offset + p.size + WORD > c.page then 0 else p.offset + p.size
  }

  predicate IsDigit(id: Byte) { '0' as int <= id <= '9' as int }

  const NOWHERE := Position(0, 0, 0)
  const EMPTY_FRAME := StackNode([], [], 0, NOWHERE)

  /** The first definition of a program finds no frame and pushes one. */
  function Based(s: seq<StackNode>): seq<StackNode> {
    if s == [] then [EMPTY_FRAME] else s
  }

  function PutIn(n: StackNode, id: Byte, p: Position): StackNode {
    if IsDigit(id) then n.(args := n.args + [p]) else n.(vars := n.vars + [Variable(id, p)])
  }

  function ReplaceTop(s: seq<StackNode>, n: StackNode): seq<StackNode>
    requires s != []
  {
    s[..|s| - 1] + [n]
  }

  /** A whole word inside one page of the stack. */
  predicate InStackPages(c: Space, p: Position) {
    && p.size == WORD && 0 <= p.offset && p.offset + WORD <= c.page
    && c.codePages <= p.page < c.codePages + c.stackPages
  }

  ghost predicate Sane(c: Space, s: seq<StackNode>) {
    forall i :: 0 <= i < |Places(s)| ==> InStackPages(c, Places(s)[i])
  }

  lemma {:induction false} LastIsLast(s: seq<StackNode>)
    ensures LastPlace(s) == if Places(s) == [] then None else Some(Places(s)[|Places(s)| - 1])
  {
    if s != [] {
      LastIsLast(s[..|s| - 1]);
    }
  }

  /** definirVariable; 0 and a stack overflow, or the address. */
  datatype Outcome = Defined(address: int) | Overflow

  function Define(c: Space, s: seq<StackNode>, id: Byte): (r: (seq<StackNode>, Outcome))
    requires SpaceOk(c) && Sane(c, s)
  {
    LastIsLast(s);
    TotalFits(c);
    var b := Based(s);
    var last := LastPlace(s);
    var page := NextPage(c, last);
    if page >= c.codePages + c.stackPages then (b, Overflow)
    else
      var p := Position(page, NextOffset(c, last), WORD);
      (ReplaceTop(b, PutIn(b[|b| - 1], id, p)), Defined(page * c.page + p.offset))
  }

  lemma TotalFits(c: Space)
    requires SpaceOk(c)
    ensures c.codePages + c.stackPages <= 0x7FFF_FFFF
  {
    Grows(c.codePages + c.stackPages, 1, c.page);
  }

  // ----- obtenerPosicionVariable -----

  /** The last variable of that name. */
  function LastNamed(vars: seq<Variable>, id: Byte): Option<Position> {
    if vars == [] then None
    else if vars[|vars| - 1].id == id then Some(vars[|vars| - 1].place)
    else LastNamed(vars[..|vars| - 1], id)
  }

  /** Looks only in the topmost frame: a digit is an index among its arguments. None is
      direccionInvalida. */
  function Lookup(s: seq<StackNode>, id: Byte): Option<Position>
    requires s != []
  {
    var n := s[|s| - 1];
    if IsDigit(id) then
      if id - '0' as int < |n.args| then Some(n.args[id - '0' as int]) else None
    else LastNamed(n.vars, id)
  }

  // ----- calls -----

  datatype Interrupt = NoInterrupt | StackOverflow | BadAddress

  /** What the primitives change: the stack index, programCounter and interrupcion. */
  datatype Machine = Machine(stack: seq<StackNode>, pc: Uint32, interrupt: Interrupt)

  /** u_int32_t stored in an int, and an int stored in a u_int32_t. */
  function AsInt(x: Uint32): Int32 { if x < TWO_TO_THE_31 then x else x - TWO_TO_THE_32 }

  function AsUint(x: int): Uint32 { x % TWO_TO_THE_32 }

  datatype Op =
    | OpDefine(id: Byte)
    | OpCall(target: Option<Uint32>, result: Uint32)
    | OpReturn
    | OpJump(target: Option<Uint32>)
    | OpNext

  /** A jump goes one before the label: the instruction that jumps still adds one. */
  function Jump(m: Machine, target: Option<Uint32>): Machine {
    match target
    case None => m.(interrupt := BadAddress)
    case Some(i) => m.(pc := AsUint(i - 1))
  }

  /** The frame llamarConRetorno pushes. */
  function CallFrame(c: Space, pc: Uint32, result: Uint32): StackNode
    requires SpaceOk(c)
  {
    assert result / c.page <= result by { Divided(result, c.page); }
    StackNode([], [], AsInt(pc), Position(result / c.page, result % c.page, WORD))
  }

  lemma Divided(x: nat, p: nat)
    requires p >= WORD
    ensures 4 * (x / p) <= x
    ensures x == (x / p) * p + x % p
  {
    Grows(x / p, 4, p);
  }

  /** definirVariable, llamarConRetorno, retornar, irAlLabel, and the end of
      ejecutarInstruccion. */
  function Step(c: Space, m: Machine, op: Op): Machine
    requires SpaceOk(c) && Sane(c, m.stack)
    requires op.OpReturn? ==> m.stack != []
  {
    match op
    case OpDefine(id) =>
      var (s, outcome) := Define(c, m.stack, id);
      m.(stack := s, interrupt := if outcome.Overflow? then StackOverflow else m.interrupt)
    case OpCall(target, result) => Jump(m.(stack := m.stack + [CallFrame(c, m.pc, result)]), target)
    case OpReturn => m.(stack := m.stack[..|m.stack| - 1], pc := AsUint(m.stack[|m.stack| - 1].retPos))
    case OpJump(target) => Jump(m, target)
    case OpNext => m.(pc := AsUint(m.pc + 1))
  }
}
