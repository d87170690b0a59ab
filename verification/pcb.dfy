/** The PCB as it travels between the kernel and the CPUs. Kernel/src/pcb.h and
    CPU/src/PCB.h hold the same two routines: one writes the fields one after the other
    into a buffer whose size was computed beforehand, the other reads them back. */
module Pcb {
  import opened Bytes

  type Int32 = x: int | -TWO_TO_THE_31 <= x < TWO_TO_THE_31
  type Uint32 = x: int | 0 <= x < TWO_TO_THE_32

  datatype Option<+T> = None | Some(value: T)

  /** t_posMemoria. */
  datatype Position = Position(page: Int32, offset: Int32, size: Int32)

  /** t_variable. */
  datatype Variable = Variable(id: Byte, place: Position)

  /** t_nodoStack. */
  datatype StackNode = StackNode(args: seq<Position>, vars: seq<Variable>, retPos: Int32, retVar: Position)

  datatype Instruction = Instruction(start: Int32, length: Int32)

  /** t_pcb. The two counts are fields of their own, as in C. */
  datatype Process = Process(
    pid: Int32, codePages: Int32, programCounter: Uint32,
    instructions: Int32, codeIndex: seq<Instruction>,
    labelsSize: Uint32, labels: seq<Byte>,
    stack: seq<StackNode>, exitCode: Int32)

  // ----- one field after another -----

  /** Reads a value off the front and gives the bytes left; None past the end. */
  type Decoder<T> = seq<Byte> -> Option<(T, seq<Byte>)>

  /** Whatever follows it, what f wrote is what d reads. */
  ghost predicate Inverts<T(!new)>(d: Decoder<T>, f: T -> seq<Byte>) {
    forall t: T, rest: seq<Byte> :: d(f(t) + rest) == Some((t, rest))
  }

  function PutInt(x: Int32): seq<Byte> { EncodeInt(x) }

  function PutUint(x: Uint32): seq<Byte> { EncodeUint(x) }

  function PutPosition(p: Position): (b: seq<Byte>)
    ensures |b| == 12
  {
    PutInt(p.page) + PutInt(p.offset) + PutInt(p.size)
  }

  function PutVariable(v: Variable): (b: seq<Byte>)
    ensures |b| == 13
  {
    [v.id] + PutPosition(v.place)
  }

  function PutInstruction(i: Instruction): (b: seq<Byte>)
    ensures |b| == 8
  {
    PutInt(i.start) + PutInt(i.length)
  }

  function PutAll<T>(f: T -> seq<Byte>, s: seq<T>): seq<Byte> {
    if s == [] then [] else f(s[0]) + PutAll(f, s[1..])
  }

  function PutNode(n: StackNode): seq<Byte>
    requires NodeFits(n)
  {
    PutInt(|n.args|) + PutAll(PutPosition, n.args)
    + PutInt(|n.vars|) + PutAll(PutVariable, n.vars)
    + PutInt(n.retPos) + PutPosition(n.retVar)
  }

  function PutNodes(s: seq<StackNode>): seq<Byte>
    requires forall n <- s :: NodeFits(n)
  {
    if s == [] then [] else PutNode(s[0]) + PutNodes(s[1..])
  }

  predicate NodeFits(n: StackNode) {
    IsInt(|n.args|) && IsInt(|n.vars|)
  }

  /** The counts say how many elements there are, and fit their fields. */
  ghost predicate WellFormed(p: Process) {
    && p.instructions == |p.codeIndex| && p.labelsSize == |p.labels|
    && IsInt(|p.stack|) && (forall n <- p.stack :: NodeFits(n))
  }

  function Encode(p: Process): seq<Byte>
    requires WellFormed(p)
  {
    PutInt(p.pid) + PutInt(p.codePages) + PutUint(p.programCounter)
    + PutInt(p.instructions) + PutAll(PutInstruction, p.codeIndex)
    + PutUint(p.labelsSize) + p.labels
    + PutInt(|p.stack|) + PutNodes(p.stack)
    + PutInt(p.exitCode)
  }

  // ----- and back -----

  function GetInt(b: seq<Byte>): Option<(Int32, seq<Byte>)> {
    if |b| < 4 then None else Some((DecodeInt(b[..4]), b[4..]))
  }

  function GetUint(b: seq<Byte>): Option<(Uint32, seq<Byte>)> {
    if |b| < 4 then None else Some((DecodeUint(b[..4]), b[4..]))
  }

  function GetBytes(n: nat, b: seq<Byte>): Option<(seq<Byte>, seq<Byte>)> {
    if |b| < n then None else Some((b[..n], b[n..]))
  }

  function GetPosition(b: seq<Byte>): Option<(Position, seq<Byte>)> {
    if |b| < 12 then None
    else Some((Position(DecodeInt(b[..4]), DecodeInt(b[4..8]), DecodeInt(b[8..12])), b[12..]))
  }

  function GetVariable(b: seq<Byte>): Option<(Variable, seq<Byte>)> {
    if b == [] then None
    else match GetPosition(b[1..])
      case None => None
      case Some((p, rest)) => Some((Variable(b[0], p), rest))
  }

  function GetInstruction(b: seq<Byte>): Option<(Instruction, seq<Byte>)> {
    if |b| < 8 then None else Some((Instruction(DecodeInt(b[..4]), DecodeInt(b[4..8])), b[8..]))
  }

  /** A loop that reads n elements; none when n is not positive. */
  function GetAll<T>(d: Decoder<T>, n: int, b: seq<Byte>): Option<(seq<T>, seq<Byte>)>
    decreases if n < 0 then 0 else n
  {
    if n <= 0 then Some(([], b))
    else match d(b)
      case None => None
      case Some((t, rest)) =>
        match GetAll(d, n - 1, rest)
        case None => None
        case Some((ts, more)) => Some(([t] + ts, more))
  }

  function GetNode(b: seq<Byte>): Option<(StackNode, seq<Byte>)> {
    match GetInt(b)
    case None => None
    case Some((nArgs, b1)) =>
    match GetAll(GetPosition, nArgs, b1)
    case None => None
    case Some((args, b2)) =>
    match GetInt(b2)
    case None => None
    case Some((nVars, b3)) =>
    match GetAll(GetVariable, nVars, b3)
    case None => None
    case Some((vars, b4)) =>
    match GetInt(b4)
    case None => None
    case Some((retPos, b5)) =>
    match GetPosition(b5)
    case None => None
    case Some((retVar, b6)) => Some((StackNode(args, vars, retPos, retVar), b6))
  }

  function Decode(b: seq<Byte>): Option<(Process, seq<Byte>)> {
    match GetInt(b)
    case None => None
    case Some((pid, b1)) =>
    match GetInt(b1)
    case None => None
    case Some((codePages, b2)) =>
    match GetUint(b2)
    case None => None
    case Some((pc, b3)) =>
    match GetInt(b3)
    case None => None
    case Some((instructions, b4)) =>
    match GetAll(GetInstruction, instructions, b4)
    case None => None
    case Some((codeIndex, b5)) =>
    match GetUint(b5)
    case None => None
    case Some((labelsSize, b6)) =>
    match GetBytes(labelsSize, b6)
    case None => None
    case Some((labels, b7)) =>
    match GetInt(b7)
    case None => None
    case Some((depth, b8)) =>
    match GetAll(GetNode, depth, b8)
    case None => None
    case Some((stack, b9)) =>
    match GetInt(b9)
    case None => None
    case Some((exitCode, b10)) =>
      Some((Process(pid, codePages, pc, instructions, codeIndex, labelsSize, labels, stack, exitCode), b10))
  }

  // ----- the round trip -----

  lemma IntInverts(x: Int32, rest: seq<Byte>)
    ensures GetInt(PutInt(x) + rest) == Some((x, rest))
  {
    DecodeEncodeInt(x);
    assert (PutInt(x) + rest)[..4] == PutInt(x);
  }

  lemma UintInverts(x: Uint32, rest: seq<Byte>)
    ensures GetUint(PutUint(x) + rest) == Some((x, rest))
  {
    DecodeEncodeUint(x);
    assert (PutUint(x) + rest)[..4] == PutUint(x);
  }

  lemma PositionInverts()
    ensures Inverts(GetPosition, PutPosition)
  {
    forall p, rest: seq<Byte>
      ensures GetPosition(PutPosition(p) + rest) == Some((p, rest))
    {
      var b := PutPosition(p) + rest;
      DecodeEncodeInt(p.page); DecodeEncodeInt(p.offset); DecodeEncodeInt(p.size);
      assert b[..4] == PutInt(p.page);
      assert b[4..8] == PutInt(p.offset);
      assert b[8..12] == PutInt(p.size);
      assert b[12..] == rest;
    }
  }

  lemma VariableInverts()
    ensures Inverts(GetVariable, PutVariable)
  {
    PositionInverts();
    forall v, rest: seq<Byte>
      ensures GetVariable(PutVariable(v) + rest) == Some((v, rest))
    {
      var b := PutVariable(v) + rest;
      assert b[1..] == PutPosition(v.place) + rest;
    }
  }

  lemma InstructionInverts()
    ensures Inverts(GetInstruction, PutInstruction)
  {
    forall i, rest: seq<Byte>
      ensures GetInstruction(PutInstruction(i) + rest) == Some((i, rest))
    {
      var b := PutInstruction(i) + rest;
      DecodeEncodeInt(i.start); DecodeEncodeInt(i.length);
      assert b[..4] == PutInt(i.start);
      assert b[4..8] == PutInt(i.length);
      assert b[8..] == rest;
    }
  }

  lemma {:induction false} AllInverts<T(!new)>(d: Decoder<T>, f: T -> seq<Byte>, s: seq<T>, rest: seq<Byte>)
    requires Inverts(d, f)
    ensures GetAll(d, |s|, PutAll(f, s) + rest) == Some((s, rest))
  {
    if s == [] {
      assert PutAll(f, s) + rest == rest;
    } else {
      assert PutAll(f, s) + rest == f(s[0]) + (PutAll(f, s[1..]) + rest);
      AllInverts(d, f, s[1..], rest);
      assert [s[0]] + s[1..] == s;
    }
  }

  lemma NodeInverts(n: StackNode, rest: seq<Byte>)
    requires NodeFits(n)
    ensures GetNode(PutNode(n) + rest) == Some((n, rest))
  {
    hide GetAll, PutAll, GetInt, PutInt, GetPosition, PutPosition, GetVariable, PutVariable;
    PositionInverts(); VariableInverts();
    var b5 := PutPosition(n.retVar) + rest;
    var b4 := PutInt(n.retPos) + b5;
    var b3 := PutAll(PutVariable, n.vars) + b4;
    var b2 := PutInt(|n.vars|) + b3;
    var b1 := PutAll(PutPosition, n.args) + b2;
    assert PutNode(n) + rest == PutInt(|n.args|) + b1;
    IntInverts(|n.args|, b1);
    AllInverts(GetPosition, PutPosition, n.args, b2);
    IntInverts(|n.vars|, b3);
    AllInverts(GetVariable, PutVariable, n.vars, b4);
    IntInverts(n.retPos, b5);
  }

  lemma {:induction false} NodesInvert(s: seq<StackNode>, rest: seq<Byte>)
    requires forall n <- s :: NodeFits(n)
    ensures GetAll(GetNode, |s|, PutNodes(s) + rest) == Some((s, rest))
  {
    hide PutNode, GetNode;
    if s == [] {
      assert PutNodes(s) + rest == rest;
    } else {
      assert PutNodes(s) + rest == PutNode(s[0]) + (PutNodes(s[1..]) + rest);
      NodeInverts(s[0], PutNodes(s[1..]) + rest);
      NodesInvert(s[1..], rest);
      assert [s[0]] + s[1..] == s;
    }
  }

  /** Round trip: whatever follows it in the stream, the encoding of a PCB decodes to that
      PCB and leaves exactly what followed. */
  lemma RoundTrip(p: Process, rest: seq<Byte>)
    requires WellFormed(p)
    ensures Decode(Encode(p) + rest) == Some((p, rest))
  {
    hide GetAll, PutAll, GetInt, PutInt, GetUint, PutUint, GetNode, PutNodes, GetInstruction, PutInstruction;
    InstructionInverts();
    var b9 := PutInt(p.exitCode) + rest;
    var b8 := PutNodes(p.stack) + b9;
    var b7 := PutInt(|p.stack|) + b8;
    var b6 := p.labels + b7;
    var b5 := PutUint(p.labelsSize) + b6;
    var b4 := PutAll(PutInstruction, p.codeIndex) + b5;
    var b3 := PutInt(p.instructions) + b4;
    var b2 := PutUint(p.programCounter) + b3;
    var b1 := PutInt(p.codePages) + b2;
    assert Encode(p) + rest == PutInt(p.pid) + b1;
    IntInverts(p.pid, b1);
    IntInverts(p.codePages, b2);
    UintInverts(p.programCounter, b3);
    IntInverts(p.instructions, b4);
    AllInverts(GetInstruction, PutInstruction, p.codeIndex, b5);
    UintInverts(p.labelsSize, b6);
    assert b6[..|p.labels|] == p.labels && b6[|p.labels|..] == b7;
    IntInverts(|p.stack|, b8);
    NodesInvert(p.stack, b9);
    IntInverts(p.exitCode, rest);
  }

  /** No two PCBs share an encoding, and none is the beginning of another's. */
  lemma PrefixFree(p: Process, q: Process, rest: seq<Byte>)
    requires WellFormed(p) && WellFormed(q) && Encode(p) + rest == Encode(q)
    ensures p == q && rest == []
  {
    RoundTrip(p, rest);
    RoundTrip(q, []);
    assert Encode(q) + [] == Encode(q);
  }
}
