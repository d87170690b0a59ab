/** Where each field lies in what is kept or sent as bytes: integers, table entries, block
    headers, cache entries and PCBs. */
module Layouts {
  import opened Bytes
  import opened HeapPage
  import opened MemoryTable
  import opened MemorySpec
  import opened Pcb
  import opened PcbWire

  // ----- integers -----

  lemma NatBytes(u: nat)
    requires u < TWO_TO_THE_32
    ensures EncodeNat(u, 4) == [u % 256, u / 0x100 % 256, u / 0x1_0000 % 256, u / 0x100_0000]
  {
    var u1, u2, u3 := u / 256, u / 256 / 256, u / 256 / 256 / 256;
    assert EncodeNat(u3, 1) == [u3 % 256] + EncodeNat(u3 / 256, 0);
    assert EncodeNat(u2, 2) == [u2 % 256] + EncodeNat(u3, 1);
    assert EncodeNat(u1, 3) == [u1 % 256] + EncodeNat(u2, 2);
    assert EncodeNat(u, 4) == [u % 256] + EncodeNat(u1, 3);
  }

  /** Four bytes, the least significant first; a negative number as its two's complement. */
  lemma IntBytes(x: int)
    requires IsInt(x)
    ensures var u := if x < 0 then x + 0x1_0000_0000 else x;
      EncodeInt(x) == [u % 256, u / 0x100 % 256, u / 0x1_0000 % 256, u / 0x100_0000]
  {
    NatBytes(if x < 0 then x + TWO_TO_THE_32 else x);
  }

  lemma UintBytes(x: int)
    requires IsUint(x)
    ensures EncodeUint(x) == [x % 256, x / 0x100 % 256, x / 0x1_0000 % 256, x / 0x100_0000]
  {
    NatBytes(x);
  }

  // ----- entries and headers -----

  /** struct_adm_memoria: frame, pid, page. */
  lemma EntryLayout(e: Entry)
    requires IsInt(e.frame) && IsInt(e.pid) && IsInt(e.page)
    ensures EncodeEntry(e)[..4] == EncodeInt(e.frame)
    ensures EncodeEntry(e)[4..8] == EncodeInt(e.pid)
    ensures EncodeEntry(e)[8..12] == EncodeInt(e.page)
  {
  }

  /** t_bloqueMetadata: 1 or -1 for the use mark, then the size. */
  lemma HeaderLayout(b: Block)
    requires IsInt(b.size)
    ensures Meta(b)[..4] == if b.used then [1, 0, 0, 0] else [255, 255, 255, 255]
    ensures Meta(b)[4..8] == EncodeInt(b.size)
  {
    IntBytes(1);
    IntBytes(-1);
  }

  /** A cache entry: pid, page, content. */
  lemma SlotLayout(e: Slot)
    requires IsInt(e.pid) && IsInt(e.page)
    ensures SlotBytes(e)[..4] == EncodeInt(e.pid)
    ensures SlotBytes(e)[4..8] == EncodeInt(e.page)
    ensures SlotBytes(e)[8..] == e.content
  {
  }

  // ----- the PCB -----

  lemma Piece(a: seq<Byte>, m: seq<Byte>, z: seq<Byte>)
    ensures (a + m + z)[|a|..|a| + |m|] == m
  {
  }

  /** Elements of the same size lie one behind the other. */
  lemma {:induction false} AllAt<T>(f: T -> seq<Byte>, s: seq<T>, n: nat, i: nat, at: nat)
    requires (forall t :: |f(t)| == n) && i < |s| && at == n * i
    ensures at + n <= |PutAll(f, s)| && PutAll(f, s)[at..at + n] == f(s[i])
  {
    if i > 0 {
      assert n * i == n * (i - 1) + n;
      AllAt(f, s[1..], n, i - 1, at - n);
      var r := PutAll(f, s[1..]);
      assert PutAll(f, s) == f(s[0]) + r;
      assert (f(s[0]) + r)[at..at + n] == r[at - n..at];
    }
  }

  lemma PositionLayout(p: Position)
    ensures PutPosition(p)[..4] == EncodeInt(p.page)
    ensures PutPosition(p)[4..8] == EncodeInt(p.offset)
    ensures PutPosition(p)[8..12] == EncodeInt(p.size)
  {
  }

  lemma InstructionLayout(i: Instruction)
    ensures PutInstruction(i)[..4] == EncodeInt(i.start) && PutInstruction(i)[4..8] == EncodeInt(i.length)
  {
  }

  lemma VariableLayout(v: Variable)
    ensures PutVariable(v)[0] == v.id && PutVariable(v)[1..] == PutPosition(v.place)
  {
  }

  /** A frame: the number of its arguments and those, the number of its variables and those,
      where to return and where the result goes. */
  lemma NodeLayout(n: StackNode)
    requires NodeFits(n)
    ensures var b := PutNode(n); var v := 4 + 12 * |n.args|; var r := v + 4 + 13 * |n.vars|;
      && |b| == r + 16
      && b[..4] == EncodeInt(|n.args|) && b[4..v] == PutAll(PutPosition, n.args)
      && b[v..v + 4] == EncodeInt(|n.vars|) && b[v + 4..r] == PutAll(PutVariable, n.vars)
      && b[r..r + 4] == EncodeInt(n.retPos) && b[r + 4..] == PutPosition(n.retVar)
  {
    hide PutAll, PutPosition, PutVariable, EncodeInt;
    AllSize(PutPosition, n.args, 12);
    AllSize(PutVariable, n.vars, 13);
  }

  /** Argument and variable i of a frame. */
  lemma NodeItems(n: StackNode, i: nat)
    requires NodeFits(n)
    ensures var b := PutNode(n); var v := 4 + 12 * |n.args|;
      && (i < |n.args| ==> 4 + 12 * i + 12 <= |b| && b[4 + 12 * i..4 + 12 * i + 12] == PutPosition(n.args[i]))
      && (i < |n.vars| ==> v + 4 + 13 * i + 13 <= |b| && b[v + 4 + 13 * i..v + 4 + 13 * i + 13] == PutVariable(n.vars[i]))
  {
    hide PutAll, PutPosition, PutVariable, PutNode, EncodeInt;
    NodeLayout(n);
    AllSize(PutPosition, n.args, 12);
    AllSize(PutVariable, n.vars, 13);
    var b, v := PutNode(n), 4 + 12 * |n.args|;
    if i < |n.args| {
      AllAt(PutPosition, n.args, 12, i, 12 * i);
      Within(b, 4, v, 12 * i, 12 * i + 12);
    }
    if i < |n.vars| {
      AllAt(PutVariable, n.vars, 13, i, 13 * i);
      Within(b, v + 4, v + 4 + 13 * |n.vars|, 13 * i, 13 * i + 13);
    }
  }

  /** The frames follow each other, the oldest first. */
  lemma {:induction false} NodesLayout(s: seq<StackNode>, i: nat)
    requires (forall n <- s :: NodeFits(n)) && i < |s|
    ensures PutNodes(s) == PutNodes(s[..i]) + PutNode(s[i]) + PutNodes(s[i + 1..])
  {
    hide PutNode;
    if i > 0 {
      NodesLayout(s[1..], i - 1);
      assert s[1..][..i - 1] == s[..i][1..] && s[1..][i..] == s[i + 1..];
      assert PutNodes(s[..i]) == PutNode(s[0]) + PutNodes(s[..i][1..]);
    } else {
      assert PutNodes(s[..0]) == [];
    }
  }

  function Head(p: Process): (b: seq<Byte>)
    ensures |b| == 16
  {
    PutInt(p.pid) + PutInt(p.codePages) + PutUint(p.programCounter) + PutInt(p.instructions)
  }

  function Tail(p: Process): (b: seq<Byte>)
    requires WellFormed(p)
    ensures |b| == 4 + |p.labels| + 4 + |PutNodes(p.stack)| + 4
  {
    PutUint(p.labelsSize) + p.labels + PutInt(|p.stack|) + PutNodes(p.stack) + PutInt(p.exitCode)
  }

  lemma PcbParts(p: Process)
    requires WellFormed(p)
    ensures Encode(p) == Head(p) + PutAll(PutInstruction, p.codeIndex) + Tail(p)
    ensures |PutAll(PutInstruction, p.codeIndex)| == 8 * |p.codeIndex|
  {
    hide PutAll, PutInstruction, PutNodes, PutInt, PutUint;
    AllSize(PutInstruction, p.codeIndex, 8);
  }

  lemma HeadLayout(p: Process)
    ensures var b := Head(p);
      && b[..4] == EncodeInt(p.pid) && b[4..8] == EncodeInt(p.codePages)
      && b[8..12] == EncodeUint(p.programCounter) && b[12..16] == EncodeInt(p.instructions)
  {
    hide EncodeInt, EncodeUint;
  }

  lemma TailLayout(p: Process)
    requires WellFormed(p)
    ensures var b, d := Tail(p), 4 + |p.labels|;
      && b[..4] == EncodeUint(p.labelsSize) && b[4..d] == p.labels && b[d..d + 4] == EncodeInt(|p.stack|)
      && b[d + 4..|b| - 4] == PutNodes(p.stack) && b[|b| - 4..] == EncodeInt(p.exitCode)
  {
    hide EncodeInt, EncodeUint, PutNodes;
  }

  /** The message: pid, pages of code, programCounter, the code index behind its count, the
      labels behind their size, the frames behind their count, and the exit code. */
  lemma PcbLayout(p: Process)
    requires WellFormed(p)
    ensures var b := Encode(p); var l := 16 + 8 * |p.codeIndex|; var d := l + 4 + |p.labels|;
      && |b| == d + 4 + |PutNodes(p.stack)| + 4
      && b[..4] == EncodeInt(p.pid) && b[4..8] == EncodeInt(p.codePages)
      && b[8..12] == EncodeUint(p.programCounter) && b[12..16] == EncodeInt(p.instructions)
      && b[l..l + 4] == EncodeUint(p.labelsSize) && b[l + 4..d] == p.labels
      && b[d..d + 4] == EncodeInt(|p.stack|)
      && b[d + 4..|b| - 4] == PutNodes(p.stack)
      && b[|b| - 4..] == EncodeInt(p.exitCode)
  {
    hide PutAll, PutInstruction, PutNodes, Encode, Head, Tail, EncodeInt, EncodeUint;
    PcbParts(p); HeadLayout(p); TailLayout(p);
    var b, head, tail, l := Encode(p), Head(p), Tail(p), 16 + 8 * |p.codeIndex|;
    var n, k := |b|, 4 + |p.labels|;
    assert b[..16] == head && b[l..n] == tail;
    Within(b, 0, 16, 0, 4); Within(b, 0, 16, 4, 8); Within(b, 0, 16, 8, 12); Within(b, 0, 16, 12, 16);
    Within(b, l, n, 0, 4); Within(b, l, n, 4, k); Within(b, l, n, k, k + 4);
    Within(b, l, n, k + 4, |tail| - 4); Within(b, l, n, |tail| - 4, |tail|);
    assert b[0..16] == b[..16];
  }

  /** Start and length of instruction i, eight bytes further on for each. */
  lemma CodeLayout(p: Process, i: nat)
    requires WellFormed(p) && i < |p.codeIndex|
    ensures var b, at := Encode(p), 16 + 8 * i;
      && at + 8 <= |b|
      && b[at..at + 4] == EncodeInt(p.codeIndex[i].start) && b[at + 4..at + 8] == EncodeInt(p.codeIndex[i].length)
  {
    hide PutAll, PutInstruction, PutNodes, Encode, Head, Tail, EncodeInt;
    PcbParts(p);
    AllAt(PutInstruction, p.codeIndex, 8, i, 8 * i);
    InstructionLayout(p.codeIndex[i]);
    var b, code, at, l := Encode(p), PutAll(PutInstruction, p.codeIndex), 16 + 8 * i, 16 + 8 * |p.codeIndex|;
    Piece(Head(p), code, Tail(p));
    Within(b, 16, l, 8 * i, 8 * i + 8);
    Within(b, at, at + 8, 0, 4); Within(b, at, at + 8, 4, 8);
    assert PutInstruction(p.codeIndex[i])[0..4] == PutInstruction(p.codeIndex[i])[..4];
  }
}
