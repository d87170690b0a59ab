/** The loops that compute the size of a PCB, write it into a buffer of that size and read
    it back, and the framed message the two programs exchange. */
module PcbWire {
  import opened Bytes
  import opened Pcb

  // ----- the size computed beforehand -----

  lemma {:induction false} AllSize<T>(f: T -> seq<Byte>, s: seq<T>, n: nat)
    requires forall t :: |f(t)| == n
    ensures |PutAll(f, s)| == n * |s|
  {
    if s != [] {
      AllSize(f, s[1..], n);
    }
  }

  function NodeSize(n: StackNode): nat {
    4 * 2 + |n.args| * 12 + |n.vars| * (1 + 12) + 4 + 12
  }

  lemma NodeSizeIs(n: StackNode)
    requires NodeFits(n)
    ensures |PutNode(n)| == NodeSize(n)
  {
    AllSize(PutPosition, n.args, 12);
    AllSize(PutVariable, n.vars, 13);
  }

  /** calcularIndiceStackSize. */
  method StackSize(stack: seq<StackNode>) returns (size: nat)
    requires forall n <- stack :: NodeFits(n)
    ensures size == |PutNodes(stack)|
  {
    size := 0;
    var i := 0;
    while i < |stack|
      invariant 0 <= i <= |stack|
      invariant size + |PutNodes(stack[i..])| == |PutNodes(stack)|
    {
      NodeSizeIs(stack[i]);
      assert stack[i..][1..] == stack[i + 1..];
      size := size + (4 * 2 + |stack[i].args| * 12 + |stack[i].vars| * (1 + 12) + 4 + 12);
      i := i + 1;
    }
  }

  /** calcularPcbSerializadoSize: exactly the bytes that serialising will write. */
  method SerializedSize(p: Process) returns (size: nat)
    requires WellFormed(p)
    ensures size == |Encode(p)|
  {
    AllSize(PutInstruction, p.codeIndex, 8);
    var s := StackSize(p.stack);
    size := 4 * 5 + 4 + 4 + p.instructions * 4 * 2 + p.labelsSize + s;
  }

  // ----- serializarPcbYEnviar -----

  /** memcpy at the cursor, which moves past what was written. */
  method Append(a: array<Byte>, at: nat, d: seq<Byte>) returns (next: nat)
    requires at + |d| <= a.Length
    modifies a
    ensures next == at + |d| && a[..next] == old(a[..at]) + d
  {
    Memcpy(a, at, d);
    next := at + |d|;
    assert a[..][..next] == a[..next];
  }

  method AppendPositions(a: array<Byte>, at: nat, s: seq<Position>) returns (next: nat)
    requires at + |PutAll(PutPosition, s)| <= a.Length
    modifies a
    ensures next <= a.Length && a[..next] == old(a[..at]) + PutAll(PutPosition, s)
  {
    next := at;
    var j := 0;
    while j < |s|
      invariant 0 <= j <= |s| && at <= next && next + |PutAll(PutPosition, s[j..])| <= a.Length
      invariant a[..next] + PutAll(PutPosition, s[j..]) == old(a[..at]) + PutAll(PutPosition, s)
    {
      assert s[j..][1..] == s[j + 1..];
      next := Append(a, next, PutPosition(s[j]));
      j := j + 1;
    }
  }

  method AppendVariables(a: array<Byte>, at: nat, s: seq<Variable>) returns (next: nat)
    requires at + |PutAll(PutVariable, s)| <= a.Length
    modifies a
    ensures next <= a.Length && a[..next] == old(a[..at]) + PutAll(PutVariable, s)
  {
    next := at;
    var j := 0;
    while j < |s|
      invariant 0 <= j <= |s| && at <= next && next + |PutAll(PutVariable, s[j..])| <= a.Length
      invariant a[..next] + PutAll(PutVariable, s[j..]) == old(a[..at]) + PutAll(PutVariable, s)
    {
      assert s[j..][1..] == s[j + 1..];
      assert PutVariable(s[j]) == [s[j].id] + PutPosition(s[j].place);
      next := Append(a, next, [s[j].id]);
      next := Append(a, next, PutPosition(s[j].place));
      j := j + 1;
    }
  }

  method AppendNode(a: array<Byte>, at: nat, n: StackNode) returns (next: nat)
    requires NodeFits(n) && at + |PutNode(n)| <= a.Length
    modifies a
    ensures next <= a.Length && a[..next] == old(a[..at]) + PutNode(n)
  {
    hide PutAll, PutPosition, PutInt;
    NodeSizeIs(n);
    next := Append(a, at, PutInt(|n.args|));
    next := AppendPositions(a, next, n.args);
    next := Append(a, next, PutInt(|n.vars|));
    next := AppendVariables(a, next, n.vars);
    next := Append(a, next, PutInt(n.retPos));
    next := Append(a, next, PutPosition(n.retVar));
  }

  method AppendInstructions(a: array<Byte>, at: nat, s: seq<Instruction>) returns (next: nat)
    requires at + |PutAll(PutInstruction, s)| <= a.Length
    modifies a
    ensures next <= a.Length && a[..next] == old(a[..at]) + PutAll(PutInstruction, s)
  {
    next := at;
    var i := 0;
    while i < |s|
      invariant 0 <= i <= |s| && at <= next && next + |PutAll(PutInstruction, s[i..])| <= a.Length
      invariant a[..next] + PutAll(PutInstruction, s[i..]) == old(a[..at]) + PutAll(PutInstruction, s)
    {
      assert s[i..][1..] == s[i + 1..];
      SplitInstruction(s[i]);
      next := Append(a, next, PutInt(s[i].start));
      next := Append(a, next, PutInt(s[i].length));
      i := i + 1;
    }
  }

  method AppendNodes(a: array<Byte>, at: nat, s: seq<StackNode>) returns (next: nat)
    requires (forall n <- s :: NodeFits(n)) && at + |PutNodes(s)| <= a.Length
    modifies a
    ensures next <= a.Length && a[..next] == old(a[..at]) + PutNodes(s)
  {
    hide PutNode;
    next := at;
    var i := 0;
    while i < |s|
      invariant 0 <= i <= |s| && at <= next && next + |PutNodes(s[i..])| <= a.Length
      invariant a[..next] + PutNodes(s[i..]) == old(a[..at]) + PutNodes(s)
    {
      assert s[i..][1..] == s[i + 1..];
      next := AppendNode(a, next, s[i]);
      i := i + 1;
    }
  }

  /** The buffer is filled exactly: no byte is written past it and none is left over. */
  method Serialize(p: Process) returns (buffer: array<Byte>)
    requires WellFormed(p)
    ensures fresh(buffer) && buffer[..] == Encode(p)
  {
    hide PutInt, PutUint, PutAll, PutNodes;
    var size := SerializedSize(p);
    buffer := new Byte[size];
    var at: nat := Append(buffer, 0, PutInt(p.pid));
    assert buffer[..at] == PutInt(p.pid);
    at := Append(buffer, at, PutInt(p.codePages));
    at := Append(buffer, at, PutUint(p.programCounter));
    at := Append(buffer, at, PutInt(p.instructions));
    at := AppendInstructions(buffer, at, p.codeIndex);
    at := Append(buffer, at, PutUint(p.labelsSize));
    at := Append(buffer, at, p.labels);
    at := Append(buffer, at, PutInt(|p.stack|));
    at := AppendNodes(buffer, at, p.stack);
    at := Append(buffer, at, PutInt(p.exitCode));
    assert buffer[..at] == Encode(p);
    assert buffer[..at] == buffer[..];
  }

  lemma SplitInstruction(i: Instruction)
    ensures PutInstruction(i) == PutInt(i.start) + PutInt(i.length)
  {
  }

  // ----- recibirYDeserializarPcb -----

  method TakeInt(b: seq<Byte>, at: nat) returns (x: Int32, next: nat)
    requires at <= |b| && GetInt(b[at..]).Some?
    ensures next <= |b| && GetInt(b[at..]) == Some((x, b[next..]))
  {
    x := DecodeInt(b[at..at + 4]);
    next := at + 4;
    assert b[at..][..4] == b[at..at + 4] && b[at..][4..] == b[next..];
  }

  method TakeUint(b: seq<Byte>, at: nat) returns (x: Uint32, next: nat)
    requires at <= |b| && GetUint(b[at..]).Some?
    ensures next <= |b| && GetUint(b[at..]) == Some((x, b[next..]))
  {
    x := DecodeUint(b[at..at + 4]);
    next := at + 4;
    assert b[at..][..4] == b[at..at + 4] && b[at..][4..] == b[next..];
  }

  method TakePosition(b: seq<Byte>, at: nat) returns (p: Position, next: nat)
    requires at <= |b| && GetPosition(b[at..]).Some?
    ensures next <= |b| && GetPosition(b[at..]) == Some((p, b[next..]))
  {
    p := Position(DecodeInt(b[at..at + 4]), DecodeInt(b[at + 4..at + 8]), DecodeInt(b[at + 8..at + 12]));
    next := at + 12;
    var r := b[at..];
    assert r[..4] == b[at..at + 4] && r[4..8] == b[at + 4..at + 8] && r[8..12] == b[at + 8..at + 12];
    assert r[12..] == b[next..];
  }

  /** One element read inside a loop of n, i of them already taken. */
  lemma GetOneMore<T>(d: Decoder<T>, n: int, b: seq<Byte>)
    requires n > 0 && GetAll(d, n, b).Some?
    ensures d(b).Some?
    ensures GetAll(d, n - 1, d(b).value.1).Some?
    ensures GetAll(d, n, b).value.0 == [d(b).value.0] + GetAll(d, n - 1, d(b).value.1).value.0
    ensures GetAll(d, n, b).value.1 == GetAll(d, n - 1, d(b).value.1).value.1
  {
  }

  method TakePositions(b: seq<Byte>, at: nat, n: int) returns (s: seq<Position>, next: nat)
    requires at <= |b| && GetAll(GetPosition, n, b[at..]).Some?
    ensures next <= |b| && GetAll(GetPosition, n, b[at..]) == Some((s, b[next..]))
  {
    hide GetPosition;
    ghost var all := GetAll(GetPosition, n, b[at..]).value;
    s, next := [], at;
    var j := 0;
    while j < n
      invariant 0 <= j && (n >= 0 ==> j <= n) && next <= |b|
      invariant GetAll(GetPosition, n - j, b[next..]).Some?
      invariant s + GetAll(GetPosition, n - j, b[next..]).value.0 == all.0
      invariant GetAll(GetPosition, n - j, b[next..]).value.1 == all.1
    {
      GetOneMore(GetPosition, n - j, b[next..]);
      var p;
      p, next := TakePosition(b, next);
      s := s + [p];
      j := j + 1;
    }
    NoneLeft(GetPosition, n - j, b[next..]);
    assert s + [] == s;
  }

  method TakeVariables(b: seq<Byte>, at: nat, n: int) returns (s: seq<Variable>, next: nat)
    requires at <= |b| && GetAll(GetVariable, n, b[at..]).Some?
    ensures next <= |b| && GetAll(GetVariable, n, b[at..]) == Some((s, b[next..]))
  {
    hide GetPosition;
    ghost var all := GetAll(GetVariable, n, b[at..]).value;
    s, next := [], at;
    var j := 0;
    while j < n
      invariant 0 <= j && (n >= 0 ==> j <= n) && next <= |b|
      invariant GetAll(GetVariable, n - j, b[next..]).Some?
      invariant s + GetAll(GetVariable, n - j, b[next..]).value.0 == all.0
      invariant GetAll(GetVariable, n - j, b[next..]).value.1 == all.1
    {
      GetOneMore(GetVariable, n - j, b[next..]);
      assert b[next..][1..] == b[next + 1..];
      var id := b[next];
      var p;
      p, next := TakePosition(b, next + 1);
      s := s + [Variable(id, p)];
      j := j + 1;
    }
    NoneLeft(GetVariable, n - j, b[next..]);
    assert s + [] == s;
  }

  method TakeNode(b: seq<Byte>, at: nat) returns (n: StackNode, next: nat)
    requires at <= |b| && GetNode(b[at..]).Some?
    ensures next <= |b| && GetNode(b[at..]) == Some((n, b[next..]))
  {
    hide GetPosition, GetAll, GetInt;
    var nArgs, nVars, args, vars, retPos, retVar;
    nArgs, next := TakeInt(b, at);
    args, next := TakePositions(b, next, nArgs);
    nVars, next := TakeInt(b, next);
    vars, next := TakeVariables(b, next, nVars);
    retPos, next := TakeInt(b, next);
    retVar, next := TakePosition(b, next);
    n := StackNode(args, vars, retPos, retVar);
  }

  lemma InstructionAt(b: seq<Byte>, at: nat)
    requires at <= |b| && GetInstruction(b[at..]).Some?
    ensures at + 8 <= |b|
    ensures GetInstruction(b[at..])
         == Some((Instruction(DecodeInt(b[at..at + 4]), DecodeInt(b[at + 4..at + 8])), b[at + 8..]))
  {
    var r := b[at..];
    assert r[..4] == b[at..at + 4] && r[4..8] == b[at + 4..at + 8] && r[8..] == b[at + 8..];
  }

  method TakeInstructions(b: seq<Byte>, at: nat, n: int) returns (s: seq<Instruction>, next: nat)
    requires at <= |b| && GetAll(GetInstruction, n, b[at..]).Some?
    ensures next <= |b| && GetAll(GetInstruction, n, b[at..]) == Some((s, b[next..]))
  {
    hide GetAll, GetInstruction;
    ghost var all := GetAll(GetInstruction, n, b[at..]).value;
    s, next := [], at;
    var j := 0;
    while j < n
      invariant 0 <= j && (n >= 0 ==> j <= n) && next <= |b|
      invariant GetAll(GetInstruction, n - j, b[next..]).Some?
      invariant s + GetAll(GetInstruction, n - j, b[next..]).value.0 == all.0
      invariant GetAll(GetInstruction, n - j, b[next..]).value.1 == all.1
    {
      GetOneMore(GetInstruction, n - j, b[next..]);
      InstructionAt(b, next);
      s := s + [Instruction(DecodeInt(b[next..next + 4]), DecodeInt(b[next + 4..next + 8]))];
      next := next + 8;
      j := j + 1;
    }
    NoneLeft(GetInstruction, n - j, b[next..]);
    assert s + [] == s;
  }

  /** Reads whatever its own counts announce; the bytes must reach that far. */
  method Deserialize(b: seq<Byte>) returns (p: Process, next: nat)
    requires Decode(b).Some?
    ensures next <= |b| && Decode(b) == Some((p, b[next..]))
  {
    hide GetAll, GetInt, GetUint, GetNode, GetInstruction;
    assert b[0..] == b;
    var pid, codePages, pc, instructions, codeIndex, labelsSize, exitCode;
    var depth: int;
    pid, next := TakeInt(b, 0);
    codePages, next := TakeInt(b, next);
    pc, next := TakeUint(b, next);
    instructions, next := TakeInt(b, next);
    codeIndex, next := TakeInstructions(b, next, instructions);
    labelsSize, next := TakeUint(b, next);
    var labels := b[next..next + labelsSize];
    assert b[next..][..labelsSize] == labels && b[next..][labelsSize..] == b[next + labelsSize..];
    next := next + labelsSize;
    depth, next := TakeInt(b, next);
    ghost var all := GetAll(GetNode, depth, b[next..]).value;
    var stack := [];
    var i := 0;
    while i < depth
      invariant 0 <= i && (depth >= 0 ==> i <= depth) && next <= |b|
      invariant GetAll(GetNode, depth - i, b[next..]).Some?
      invariant stack + GetAll(GetNode, depth - i, b[next..]).value.0 == all.0
      invariant GetAll(GetNode, depth - i, b[next..]).value.1 == all.1
    {
      GetOneMore(GetNode, depth - i, b[next..]);
      var node;
      node, next := TakeNode(b, next);
      stack := stack + [node];
      i := i + 1;
    }
    NoneLeft(GetNode, depth - i, b[next..]);
    assert stack + [] == stack;
    exitCode, next := TakeInt(b, next);
    p := Process(pid, codePages, pc, instructions, codeIndex, labelsSize, labels, stack, exitCode);
  }

  lemma NoneLeft<T>(d: Decoder<T>, n: int, b: seq<Byte>)
    requires n <= 0
    ensures GetAll(d, n, b) == Some(([], b))
  {
  }

  // ----- the message -----

  /** What is put on the socket: the size, then that many bytes. */
  method Send(p: Process) returns (message: seq<Byte>)
    requires WellFormed(p) && IsInt(|Encode(p)|)
    ensures message == EncodeInt(|Encode(p)|) + Encode(p)
  {
    var buffer := Serialize(p);
    message := EncodeInt(buffer.Length) + buffer[..];
  }

  /** What the other program takes off its socket: exactly one message, whatever comes
      behind it, and the PCB that was sent. Kernel and CPU run this same pair of routines. */
  method Receive(stream: seq<Byte>, ghost p: Process, ghost behind: seq<Byte>) returns (q: Process, left: seq<Byte>)
    requires WellFormed(p) && IsInt(|Encode(p)|)
    requires stream == EncodeInt(|Encode(p)|) + Encode(p) + behind
    ensures q == p && left == behind
  {
    assert stream[..4] == EncodeInt(|Encode(p)|);
    DecodeEncodeInt(|Encode(p)|);
    var size := DecodeInt(stream[..4]);
    assert stream[4..4 + size] == Encode(p) && stream[4 + size..] == behind;
    RoundTrip(p, []);
    assert Encode(p) + [] == Encode(p);
    var next;
    q, next := Deserialize(stream[4..4 + size]);
    left := stream[4 + size..];
  }
}
