/** One heap page: a run of blocks, each an eight-byte header (use mark and size)
    followed by its payload, packed in the bytes of the page itself. */
module HeapPage {
  import opened Bytes

  /** sizeof(t_bloqueMetadata): two packed ints. */
  const META: nat := 8
  const IN_USE := 1
  const NOT_IN_USE := -1

  datatype Block = Block(used: bool, size: nat)

  /** The use mark stored in a header. */
  function Mark(b: Block): int {
    if b.used then IN_USE else NOT_IN_USE
  }

  function Meta(b: Block): (m: seq<Byte>)
    requires IsInt(b.size)
    ensures |m| == META
  {
    EncodeInt(Mark(b)) + EncodeInt(b.size)
  }

  /** Bytes that a run of blocks covers, headers included. */
  function Span(bs: seq<Block>): nat {
    if bs == [] then 0 else META + bs[0].size + Span(bs[1..])
  }

  /** Free payload bytes, the quantity that sizeDisponible must equal. */
  function FreeBytes(bs: seq<Block>): nat {
    if bs == [] then 0 else (if bs[0].used then 0 else bs[0].size) + FreeBytes(bs[1..])
  }

  function LiveCount(bs: seq<Block>): nat {
    if bs == [] then 0 else (if bs[0].used then 1 else 0) + LiveCount(bs[1..])
  }

  function LiveBytes(bs: seq<Block>): nat {
    if bs == [] then 0 else (if bs[0].used then bs[0].size else 0) + LiveBytes(bs[1..])
  }

  /** From offset off on, the page holds exactly the headers of bs, one after the other. */
  ghost predicate Lays(p: seq<Byte>, off: nat, bs: seq<Block>)
    decreases bs
  {
    && IsInt(|p|)
    && off + Span(bs) <= |p|
    && (bs != [] ==>
          && p[off..off + META] == Meta(bs[0])
          && Lays(p, off + META + bs[0].size, bs[1..]))
  }

  /** The live payloads: offset handed to the program, and the bytes it owns. */
  ghost function Live(p: seq<Byte>, off: nat, bs: seq<Block>): (m: map<int, seq<Byte>>)
    requires off + Span(bs) <= |p|
    decreases bs
  {
    if bs == [] then map[]
    else
      var rest := Live(p, off + META + bs[0].size, bs[1..]);
      if bs[0].used then rest[off + META := p[off + META..off + META + bs[0].size]] else rest
  }

  /** Headers tile the page exactly, and there are at least two of them. */
  ghost predicate PageOk(p: seq<Byte>, bs: seq<Block>) {
    Lays(p, 0, bs) && Span(bs) == |p| && |bs| >= 2
  }

  // ----- what the kernel reads back from a header -----

  function MarkAt(p: seq<Byte>, off: nat): int
    requires off + META <= |p|
  {
    DecodeInt(p[off..off + META][..INT_BYTES])
  }

  function SizeAt(p: seq<Byte>, off: nat): int
    requires off + META <= |p|
  {
    DecodeInt(p[off..off + META][INT_BYTES..])
  }

  lemma ReadMeta(p: seq<Byte>, off: nat, bs: seq<Block>)
    requires Lays(p, off, bs) && bs != []
    ensures off + META <= |p|
    ensures MarkAt(p, off) == Mark(bs[0])
    ensures SizeAt(p, off) == bs[0].size
  {
    var m := p[off..off + META];
    assert m[..INT_BYTES] == EncodeInt(Mark(bs[0]));
    assert m[INT_BYTES..] == EncodeInt(bs[0].size);
    DecodeEncodeInt(Mark(bs[0]));
    DecodeEncodeInt(bs[0].size);
  }

  // ----- runs of blocks side by side -----

  lemma {:induction false} SpanAppend(a: seq<Block>, b: seq<Block>)
    ensures Span(a + b) == Span(a) + Span(b)
    ensures FreeBytes(a + b) == FreeBytes(a) + FreeBytes(b)
    ensures LiveCount(a + b) == LiveCount(a) + LiveCount(b)
    ensures LiveBytes(a + b) == LiveBytes(a) + LiveBytes(b)
  {
    if a == [] {
      assert a + b == b;
    } else {
      SpanAppend(a[1..], b);
      assert (a + b)[1..] == a[1..] + b;
    }
  }

  lemma {:induction false} LaysAppend(p: seq<Byte>, off: nat, a: seq<Block>, x: nat, b: seq<Block>)
    requires IsInt(|p|) && x == off + Span(a)
    ensures Lays(p, off, a + b) <==> Lays(p, off, a) && Lays(p, x, b)
    decreases a
  {
    SpanAppend(a, b);
    if a == [] {
      assert a + b == b;
    } else {
      LaysAppend(p, off + META + a[0].size, a[1..], x, b);
      assert (a + b)[1..] == a[1..] + b;
    }
  }

  lemma {:induction false} LiveKeys(p: seq<Byte>, off: nat, bs: seq<Block>)
    requires off + Span(bs) <= |p|
    ensures forall k <- Live(p, off, bs) ::
              off + META <= k && k + |Live(p, off, bs)[k]| <= off + Span(bs)
    decreases bs
  {
    if bs != [] {
      LiveKeys(p, off + META + bs[0].size, bs[1..]);
    }
  }

  lemma {:induction false} LiveAppend(p: seq<Byte>, off: nat, a: seq<Block>, x: nat, b: seq<Block>)
    requires x == off + Span(a) && x + Span(b) <= |p|
    ensures off + Span(a + b) == x + Span(b)
    ensures Live(p, off, a + b) == Live(p, off, a) + Live(p, x, b)
    decreases a
  {
    SpanAppend(a, b);
    if a == [] {
      assert a + b == b;
    } else {
      assert (a + b)[1..] == a[1..] + b;
      LiveAppend(p, off + META + a[0].size, a[1..], x, b);
      LiveKeys(p, x, b);
    }
  }

  lemma {:induction false} SameBytes(p: seq<Byte>, q: seq<Byte>, off: nat, bs: seq<Block>)
    requires |p| == |q| && off + Span(bs) <= |p|
    requires forall k :: off <= k < off + Span(bs) ==> p[k] == q[k]
    ensures Lays(p, off, bs) <==> Lays(q, off, bs)
    ensures Live(p, off, bs) == Live(q, off, bs)
    decreases bs
  {
    if bs != [] {
      var n := off + META + bs[0].size;
      assert p[off..off + META] == q[off..off + META];
      assert p[off + META..n] == q[off + META..n];
      SameBytes(p, q, n, bs[1..]);
    }
  }

  /** A run of blocks cut at offsets x and y. */
  lemma SplitRun(p: seq<Byte>, off: nat, a: seq<Block>, x: nat, m: seq<Block>, y: nat, z: seq<Block>)
    requires Lays(p, off, a + m + z)
    requires x == off + Span(a) && y == x + Span(m)
    ensures off + Span(a + m + z) == y + Span(z)
    ensures Lays(p, off, a) && Lays(p, x, m) && Lays(p, y, z)
    ensures Live(p, off, a + m + z) == Live(p, off, a) + Live(p, x, m) + Live(p, y, z)
  {
    SpanAppend(a, m); SpanAppend(a + m, z);
    LaysAppend(p, off, a + m, y, z); LaysAppend(p, off, a, x, m);
    LiveAppend(p, off, a + m, y, z); LiveAppend(p, off, a, x, m);
  }

  lemma JoinRun(p: seq<Byte>, off: nat, a: seq<Block>, x: nat, m: seq<Block>, y: nat, z: seq<Block>)
    requires Lays(p, off, a) && Lays(p, x, m) && Lays(p, y, z)
    requires x == off + Span(a) && y == x + Span(m)
    ensures Lays(p, off, a + m + z)
    ensures off + Span(a + m + z) == y + Span(z)
    ensures Live(p, off, a + m + z) == Live(p, off, a) + Live(p, x, m) + Live(p, y, z)
  {
    SpanAppend(a, m);
    LaysAppend(p, off, a, x, m); LaysAppend(p, off, a + m, y, z);
    SplitRun(p, off, a, x, m, y, z);
  }

  /** Rewriting only the stretch [x, y) of the middle blocks m, as blocks n of the same
      span, leaves the neighbours laid out and their payloads untouched. */
  lemma ReplaceRun(p: seq<Byte>, q: seq<Byte>, off: nat, a: seq<Block>, x: nat,
                   m: seq<Block>, n: seq<Block>, y: nat, z: seq<Block>)
    requires |p| == |q|
    requires Lays(p, off, a + m + z)
    requires x == off + Span(a) && y == x + Span(m) == x + Span(n)
    requires forall k :: 0 <= k < |p| && !(x <= k < y) ==> p[k] == q[k]
    requires Lays(q, x, n)
    ensures off + Span(a + m + z) == y + Span(z) == off + Span(a + n + z)
    ensures Lays(q, off, a + n + z)
    ensures Lays(p, x, m)
    ensures Live(p, off, a + m + z) == Live(p, off, a) + Live(p, x, m) + Live(p, y, z)
    ensures Live(q, off, a + n + z) == Live(p, off, a) + Live(q, x, n) + Live(p, y, z)
  {
    SplitRun(p, off, a, x, m, y, z);
    SameBytes(p, q, off, a);
    SameBytes(p, q, y, z);
    JoinRun(q, off, a, x, n, y, z);
  }

  /** Two live payloads never overlap: between them lies at least a header. */
  lemma {:induction false} LiveDisjoint(p: seq<Byte>, off: nat, bs: seq<Block>, j: int, k: int)
    requires off + Span(bs) <= |p|
    requires j in Live(p, off, bs) && k in Live(p, off, bs) && j < k
    ensures j + |Live(p, off, bs)[j]| + META <= k
    decreases bs
  {
    LiveKeys(p, off + META + bs[0].size, bs[1..]);
    if j != off + META || !bs[0].used {
      LiveDisjoint(p, off + META + bs[0].size, bs[1..], j, k);
    }
  }

  /** The i-th block, when used, is live at the offset after its header. */
  lemma LiveAt(p: seq<Byte>, bs: seq<Block>, i: nat)
    requires Lays(p, 0, bs)
    requires i < |bs| && bs[i].used
    ensures Span(bs[..i]) + META + bs[i].size <= Span(bs)
    ensures Span(bs[..i]) + META in Live(p, 0, bs)
    ensures Live(p, 0, bs)[Span(bs[..i]) + META]
         == p[Span(bs[..i]) + META..Span(bs[..i]) + META + bs[i].size]
  {
    var a, m, z := bs[..i], [bs[i]], bs[i + 1..];
    assert bs == a + m + z;
    var x := Span(a);
    var y := x + META + bs[i].size;
    assert Span(m) == META + bs[i].size;
    SplitRun(p, 0, a, x, m, y, z);
    LiveOne(p, x, bs[i]);
    LiveKeys(p, y, z);
  }

  lemma LiveOne(p: seq<Byte>, off: nat, b: Block)
    requires off + META + b.size <= |p|
    ensures Span([b]) == META + b.size
    ensures Live(p, off, [b]) == if b.used then map[off + META := p[off + META..off + META + b.size]] else map[]
  {
    assert Live(p, off + META + b.size, []) == map[];
  }
}
