/** What the kernel's three requests do to one heap page, on the block list and on
    the bytes at once, and what survives each of them. */
module PageOps {
  import opened Bytes
  import opened HeapPage

  // ----- compactarPaginaHeap -----

  /** Two free neighbours become one free block that also swallows the second header. */
  function Merge(a: Block, b: Block): Block {
    Block(false, a.size + META + b.size)
  }

  /** Compaction standing on block a with r still ahead. The walk stops as soon as
      what is ahead is at most one bare header. */
  function CompactBlocks(a: Block, r: seq<Block>): (c: seq<Block>)
    ensures c != [] && c[0].used == a.used
    decreases |r|
  {
    if Span(r) <= META then [a] + r
    else if !a.used && !r[0].used then CompactBlocks(Merge(a, r[0]), r[1..])
    else [a] + CompactBlocks(r[0], r[1..])
  }

  function CompactBytes(p: seq<Byte>, off: nat, a: Block, r: seq<Block>): (q: seq<Byte>)
    requires IsInt(|p|) && off + META + a.size + Span(r) <= |p|
    ensures |q| == |p|
    decreases |r|
  {
    if Span(r) <= META then p
    else if !a.used && !r[0].used then
      CompactBytes(Paste(p, off, Meta(Merge(a, r[0]))), off, Merge(a, r[0]), r[1..])
    else CompactBytes(p, off + META + a.size, r[0], r[1..])
  }

  /** The first two blocks are compared whatever follows them: on entry the loop
      guard still holds the size 0 it was initialised with. */
  function CompactPageBlocks(bs: seq<Block>): (c: seq<Block>)
    requires |bs| >= 2
    ensures c != []
  {
    if !bs[0].used && !bs[1].used then CompactBlocks(Merge(bs[0], bs[1]), bs[2..])
    else [bs[0]] + CompactBlocks(bs[1], bs[2..])
  }

  function CompactPageBytes(p: seq<Byte>, bs: seq<Block>): (q: seq<Byte>)
    requires IsInt(|p|) && |bs| >= 2 && Span(bs) <= |p|
    ensures |q| == |p|
  {
    assert Span(bs) == 2 * META + bs[0].size + bs[1].size + Span(bs[2..]) by {
      assert bs[1..][1..] == bs[2..];
    }
    if !bs[0].used && !bs[1].used then
      CompactBytes(Paste(p, 0, Meta(Merge(bs[0], bs[1]))), 0, Merge(bs[0], bs[1]), bs[2..])
    else CompactBytes(p, META + bs[0].size, bs[1], bs[2..])
  }

  /** Everything compaction keeps: the tiling, every live payload byte for byte at its
      offset; and the free total grows by one header per header that disappears. */
  ghost predicate Compacted(p: seq<Byte>, q: seq<Byte>, off: nat, bs: seq<Block>, c: seq<Block>)
    requires off + Span(bs) <= |p| == |q|
  {
    && Span(c) == Span(bs)
    && Lays(q, off, c)
    && Live(q, off, c) == Live(p, off, bs)
    && LiveCount(c) == LiveCount(bs)
    && LiveBytes(c) == LiveBytes(bs)
    && |c| <= |bs|
    && FreeBytes(c) == FreeBytes(bs) + META * (|bs| - |c|)
    && (forall k :: 0 <= k < |p| && !(off <= k < off + Span(bs)) ==> q[k] == p[k])
  }

  /** One merge: only the first header of the two is rewritten. */
  lemma MergeStep(p: seq<Byte>, off: nat, a: Block, b: Block, r: seq<Block>)
    requires Lays(p, off, [a, b] + r) && !a.used && !b.used
    ensures IsInt(|p|) && off + META + Merge(a, b).size + Span(r) <= |p|
    ensures Compacted(p, Paste(p, off, Meta(Merge(a, b))), off, [a, b] + r, [Merge(a, b)] + r)
  {
    var m, n := [a, b], [Merge(a, b)];
    var q := Paste(p, off, Meta(Merge(a, b)));
    assert m[1..] == [b];
    assert Span([b]) == META + b.size && Span(m) == 2 * META + a.size + b.size == Span(n);
    SpanAppend(m, r); SpanAppend(n, r);
    var y := off + Span(m);
    assert m + r == [] + m + r && n + r == [] + n + r;
    LaysAppend(p, off, m, y, r);
    MergeHeader(p, off, a, b);
    ReplaceRun(p, q, off, [], off, m, n, y, r);
  }

  lemma MergeHeader(p: seq<Byte>, off: nat, a: Block, b: Block)
    requires Lays(p, off, [a, b]) && !a.used && !b.used
    ensures Span([a, b]) == Span([Merge(a, b)])
    ensures FreeBytes([a, b]) + META == FreeBytes([Merge(a, b)])
    ensures LiveCount([a, b]) == LiveCount([Merge(a, b)])
    ensures LiveBytes([a, b]) == LiveBytes([Merge(a, b)])
    ensures var q := Paste(p, off, Meta(Merge(a, b)));
      Lays(q, off, [Merge(a, b)]) && Live(q, off, [Merge(a, b)]) == Live(p, off, [a, b]) == map[]
  {
    var m := Merge(a, b);
    var q := Paste(p, off, Meta(m));
    assert [a, b][1..] == [b];
    PasteHere(p, off, Meta(m));
    assert Lays(q, off + META + m.size, []);
    LiveOne(q, off, m);
    LiveOne(p, off + META + a.size, b);
  }

  lemma CompactedTrans(p: seq<Byte>, q: seq<Byte>, r: seq<Byte>, off: nat,
                       a: seq<Block>, b: seq<Block>, c: seq<Block>)
    requires off + Span(a) <= |p| == |q| == |r|
    requires Compacted(p, q, off, a, b) && Compacted(q, r, off, b, c)
    ensures Compacted(p, r, off, a, c)
  {
  }

  /** Walking past block a: what happens ahead does not reach back. */
  lemma CompactPast(p: seq<Byte>, q: seq<Byte>, off: nat, a: Block, bs: seq<Block>, c: seq<Block>)
    requires Lays(p, off, [a] + bs) && |q| == |p|
    requires off + META + a.size + Span(bs) <= |p|
    requires Compacted(p, q, off + META + a.size, bs, c)
    ensures Compacted(p, q, off, [a] + bs, [a] + c)
  {
    var x := off + META + a.size;
    assert ([a] + bs)[1..] == bs && ([a] + c)[1..] == c;
    assert q[off..off + META] == p[off..off + META];
    assert q[off + META..x] == p[off + META..x];
  }

  lemma {:induction false} CompactCorrect(p: seq<Byte>, off: nat, a: Block, r: seq<Block>)
    requires Lays(p, off, [a] + r)
    ensures off + META + a.size + Span(r) <= |p|
    ensures Compacted(p, CompactBytes(p, off, a, r), off, [a] + r, CompactBlocks(a, r))
    decreases |r|
  {
    assert ([a] + r)[1..] == r;
    if Span(r) <= META {
    } else if !a.used && !r[0].used {
      var m := Merge(a, r[0]);
      assert [a] + r == [a, r[0]] + r[1..];
      MergeStep(p, off, a, r[0], r[1..]);
      var p1 := Paste(p, off, Meta(m));
      CompactCorrect(p1, off, m, r[1..]);
      CompactedTrans(p, p1, CompactBytes(p1, off, m, r[1..]), off,
                     [a] + r, [m] + r[1..], CompactBlocks(m, r[1..]));
    } else {
      assert r == [r[0]] + r[1..];
      CompactCorrect(p, off + META + a.size, r[0], r[1..]);
      CompactPast(p, CompactBytes(p, off + META + a.size, r[0], r[1..]), off, a, r, CompactBlocks(r[0], r[1..]));
    }
  }

  /** Compaction of a whole page between requests. */
  lemma CompactPageCorrect(p: seq<Byte>, bs: seq<Block>)
    requires PageOk(p, bs)
    ensures Compacted(p, CompactPageBytes(p, bs), 0, bs, CompactPageBlocks(bs))
  {
    var a, b, r := bs[0], bs[1], bs[2..];
    assert bs == [a, b] + r == [a] + ([b] + r);
    assert bs[1..] == [b] + r;
    if !a.used && !b.used {
      MergeStep(p, 0, a, b, r);
      var p1 := Paste(p, 0, Meta(Merge(a, b)));
      CompactCorrect(p1, 0, Merge(a, b), r);
      CompactedTrans(p, p1, CompactPageBytes(p, bs), 0, bs, [Merge(a, b)] + r, CompactPageBlocks(bs));
    } else {
      CompactCorrect(p, META + a.size, b, r);
      CompactPast(p, CompactPageBytes(p, bs), 0, a, [b] + r, CompactBlocks(b, r));
    }
  }

  ghost predicate NoFreeNeighbours(bs: seq<Block>) {
    forall i :: 0 <= i < |bs| - 1 ==> bs[i].used || bs[i + 1].used
  }

  /** The run ends in a bare free header behind another free block. */
  predicate EndsBare(bs: seq<Block>) {
    && |bs| >= 2
    && !bs[|bs| - 1].used && bs[|bs| - 1].size == 0
    && !bs[|bs| - 2].used
  }

  lemma NoFreeNeighboursCons(a: Block, c: seq<Block>)
    requires c != []
    ensures NoFreeNeighbours([a] + c) <==> (a.used || c[0].used) && NoFreeNeighbours(c)
  {
    var d := [a] + c;
    if NoFreeNeighbours(d) {
      assert d[0].used || d[0 + 1].used;
      forall i | 0 <= i < |c| - 1
        ensures c[i].used || c[i + 1].used
      {
        assert d[i + 1].used || d[i + 1 + 1].used;
      }
    }
  }

  /** The walk leaves two free neighbours iff it starts on a run that ends bare. */
  lemma {:induction false} CompactLeavesPairIff(a: Block, r: seq<Block>)
    ensures NoFreeNeighbours(CompactBlocks(a, r)) <==> !EndsBare([a] + r)
    decreases |r|
  {
    if Span(r) <= META {
      if r != [] {
        assert Span(r) == META + r[0].size + Span(r[1..]);
        assert r == [r[0]];
        NoFreeNeighboursCons(a, r);
      }
    } else if !a.used && !r[0].used {
      CompactLeavesPairIff(Merge(a, r[0]), r[1..]);
      assert r[1..] == [] ==> r == [r[0]] && Span(r) == META + r[0].size + Span([]);
    } else {
      CompactLeavesPairIff(r[0], r[1..]);
      NoFreeNeighboursCons(a, CompactBlocks(r[0], r[1..]));
      assert [r[0]] + r[1..] == r;
    }
  }

  /** Compaction leaves no two free neighbours iff the page it is given does not end in a
      bare free header behind a free block that is not the first one. */
  lemma CompactPageLeavesPairIff(bs: seq<Block>)
    requires |bs| >= 2
    ensures NoFreeNeighbours(CompactPageBlocks(bs)) <==> !(|bs| >= 3 && EndsBare(bs))
  {
    hide NoFreeNeighbours;
    if !bs[0].used && !bs[1].used {
      CompactLeavesPairIff(Merge(bs[0], bs[1]), bs[2..]);
    } else {
      CompactLeavesPairIff(bs[1], bs[2..]);
      NoFreeNeighboursCons(bs[0], CompactBlocks(bs[1], bs[2..]));
      assert [bs[1]] + bs[2..] == bs[1..];
    }
  }

  /** Such a page: a block in use, a free one, and a bare free header at the end. It comes
      about when the last block of a page is split to its last byte and then freed. */
  lemma PairRemains(n: nat)
    ensures var bs := [Block(true, 0), Block(false, n), Block(false, 0)];
      CompactPageBlocks(bs) == bs && !NoFreeNeighbours(bs)
  {
    var bs := [Block(true, 0), Block(false, n), Block(false, 0)];
    assert bs[2..] == [bs[2]];
    OneBlock(bs[2]);
    CompactPageLeavesPairIff(bs);
  }

  // ----- paginaHeapBloqueSuficiente -----

  /** Index of the first block that can be split for size bytes, or -1. */
  function FirstFit(bs: seq<Block>, size: nat): (k: int)
    ensures -1 <= k < |bs|
    ensures k >= 0 ==> !bs[k].used && bs[k].size >= size + META
    ensures forall i :: 0 <= i < (if k < 0 then |bs| else k) ==> bs[i].used || bs[i].size < size + META
  {
    if bs == [] then -1
    else if !bs[0].used && bs[0].size >= size + META then 0
    else
      var k := FirstFit(bs[1..], size);
      if k < 0 then -1 else k + 1
  }

  // ----- reservarBloqueHeap -----

  function SplitBlocks(bs: seq<Block>, k: nat, size: nat): seq<Block>
    requires k < |bs| && bs[k].size >= size + META
  {
    bs[..k] + [Block(true, size), Block(false, bs[k].size - size - META)] + bs[k + 1..]
  }

  function SplitBytes(p: seq<Byte>, off: nat, was: nat, size: nat): (q: seq<Byte>)
    requires IsInt(|p|) && was >= size + META && off + META + was <= |p|
    ensures |q| == |p|
  {
    Paste(Paste(p, off, Meta(Block(true, size))),
          off + META + size, Meta(Block(false, was - size - META)))
  }

  /** The chosen free block gives up exactly size payload bytes, whose contents are left
      as they were; no other payload is touched. */
  lemma SplitCorrect(p: seq<Byte>, bs: seq<Block>, k: nat, size: nat, x: nat)
    requires Lays(p, 0, bs)
    requires k < |bs| && !bs[k].used && bs[k].size >= size + META
    requires x == Span(bs[..k])
    ensures x + META + bs[k].size <= |p|
    ensures var q, c := SplitBytes(p, x, bs[k].size, size), SplitBlocks(bs, k, size);
      && Lays(q, 0, c) && Span(c) == Span(bs)
      && FreeBytes(c) == FreeBytes(bs) - size - META
      && LiveCount(c) == LiveCount(bs) + 1
      && LiveBytes(c) == LiveBytes(bs) + size
      && x + META !in Live(p, 0, bs)
      && Live(q, 0, c) == Live(p, 0, bs)[x + META := p[x + META..x + META + size]]
  {
    hide Lays, Live, Span, FreeBytes, LiveCount, LiveBytes, SplitBytes, SplitBlocks, Meta, Paste;
    LaysMiddle(p, bs, k);
    SplitHeaders(p, x, bs[k].size, size);
    var n := [Block(true, size), Block(false, bs[k].size - size - META)];
    SplitIs(bs, k, size);
    PutBlocks(p, SplitBytes(p, x, bs[k].size, size), bs, k, x, x + META + bs[k].size,
              n, x + META, p[x + META..x + META + size]);
  }

  lemma SplitIs(bs: seq<Block>, k: nat, size: nat)
    requires k < |bs| && bs[k].size >= size + META
    ensures SplitBlocks(bs, k, size)
         == bs[..k] + [Block(true, size), Block(false, bs[k].size - size - META)] + bs[k + 1..]
  {
  }

  lemma LaysMiddle(p: seq<Byte>, bs: seq<Block>, k: nat)
    requires Lays(p, 0, bs) && k < |bs|
    ensures IsInt(|p|) && Span(bs[..k]) + META + bs[k].size <= |p|
    ensures Lays(p, Span(bs[..k]), [bs[k]])
  {
    var a, m, z := bs[..k], [bs[k]], bs[k + 1..];
    assert bs == a + m + z;
    OneBlock(bs[k]);
    SplitRun(p, 0, a, Span(a), m, Span(a) + META + bs[k].size, z);
  }

  /** A free block replaced by blocks n, one of them live at key with payload v. */
  lemma PutBlocks(p: seq<Byte>, q: seq<Byte>, bs: seq<Block>, k: nat, x: nat, y: nat,
                  n: seq<Block>, key: int, v: seq<Byte>)
    requires Lays(p, 0, bs) && k < |bs| && !bs[k].used
    requires x == Span(bs[..k]) && y == x + META + bs[k].size <= |p| == |q|
    requires Span(n) == META + bs[k].size
    requires Lays(q, x, n) && Live(q, x, n) == map[key := v] && x < key < y
    requires forall i :: 0 <= i < |p| && !(x <= i < y) ==> p[i] == q[i]
    ensures var c := bs[..k] + n + bs[k + 1..];
      && Lays(q, 0, c) && Span(c) == Span(bs)
      && FreeBytes(c) == FreeBytes(bs) + FreeBytes(n) - bs[k].size
      && LiveCount(c) == LiveCount(bs) + LiveCount(n)
      && LiveBytes(c) == LiveBytes(bs) + LiveBytes(n)
      && key !in Live(p, 0, bs)
      && Live(q, 0, c) == Live(p, 0, bs)[key := v]
  {
    var a, m, z := bs[..k], [bs[k]], bs[k + 1..];
    assert bs == a + m + z;
    OneBlock(bs[k]);
    SplitRun(p, 0, a, x, m, y, z);
    ReplaceRun(p, q, 0, a, x, m, n, y, z);
    LiveOne(p, x, bs[k]);
    LiveKeys(p, 0, a); LiveKeys(p, y, z);
    PutBetween(Live(p, 0, a), Live(p, y, z), key, v);
    Totals(a, m, n, z);
  }

  lemma OneBlock(b: Block)
    ensures Span([b]) == META + b.size
    ensures FreeBytes([b]) == if b.used then 0 else b.size
    ensures LiveCount([b]) == if b.used then 1 else 0
    ensures LiveBytes([b]) == if b.used then b.size else 0
  {
    assert [b][1..] == [];
  }

  lemma SplitHeaders(p: seq<Byte>, x: nat, was: nat, size: nat)
    requires IsInt(|p|) && was >= size + META && x + META + was <= |p|
    ensures var q, n := SplitBytes(p, x, was, size), [Block(true, size), Block(false, was - size - META)];
      && Span(n) == META + was
      && Lays(q, x, n)
      && Live(q, x, n) == map[x + META := p[x + META..x + META + size]]
      && FreeBytes(n) == was - size - META && LiveCount(n) == 1 && LiveBytes(n) == size
      && forall k :: 0 <= k < |p| && !(x <= k < x + META + was) ==> p[k] == q[k]
  {
    hide Lays, Live, Span, Paste, Meta;
    var n0, n1 := Block(true, size), Block(false, was - size - META);
    var s := x + META + size;
    var p1 := Paste(p, x, Meta(n0));
    var q := Paste(p1, s, Meta(n1));
    OneBlock(n0); OneBlock(n1);
    SpanAppend([n0], [n1]);
    assert [n0, n1] == [n0] + [n1];
    TwoHeaders(p, x, n0, s, n1);
    LaysAppend(q, x, [n0], s, [n1]);
    LiveOne(q, x, n0);
    LiveOne(q, s, n1);
    LiveAppend(q, x, [n0], s, [n1]);
    assert Live(q, x, [n0]) + Live(q, s, [n1]) == Live(q, x, [n0]);
  }

  /** A header written at x and another at s, past the payload of the first. */
  lemma TwoHeaders(p: seq<Byte>, x: nat, n0: Block, s: nat, n1: Block)
    requires IsInt(|p|) && s == x + META + n0.size && s + META + n1.size <= |p|
    ensures var p1 := Paste(p, x, Meta(n0)); var q := Paste(p1, s, Meta(n1));
      && Lays(q, x, [n0]) && Lays(q, s, [n1])
      && q[x + META..s] == p[x + META..s]
      && (forall k :: 0 <= k < |p| && !(x <= k < s + META) ==> p[k] == q[k])
  {
    hide Lays, Paste, Meta;
    var p1 := Paste(p, x, Meta(n0));
    var q := Paste(p1, s, Meta(n1));
    LaysOne(p, x, n0);
    LaysOne(p1, s, n1);
    PasteElsewhere(p1, s, Meta(n1), x, x + META);
    LaysHeader(p1, q, x, n0);
    PasteElsewhere(p, x, Meta(n0), x + META, s);
    PasteElsewhere(p1, s, Meta(n1), x + META, s);
    forall k | 0 <= k < |p| && !(x <= k < s + META)
      ensures p[k] == q[k]
    {
      PasteByte(p, x, Meta(n0), k);
      PasteByte(p1, s, Meta(n1), k);
    }
  }

  /** A single block depends on its header alone. */
  lemma LaysHeader(p: seq<Byte>, q: seq<Byte>, x: nat, b: Block)
    requires Lays(p, x, [b]) && |q| == |p| && x + META <= |p| && q[x..x + META] == p[x..x + META]
    ensures Lays(q, x, [b])
  {
    assert Lays(q, x + META + b.size, []);
  }

  /** One key put between two maps that do not hold it. */
  lemma PutBetween<V>(l: map<int, V>, r: map<int, V>, k: int, v: V)
    requires k !in r
    ensures l + map[k := v] + r == (l + map[] + r)[k := v]
    ensures k !in l ==> l + map[] + r == (l + map[k := v] + r) - {k}
  {
  }

  lemma Totals(a: seq<Block>, m: seq<Block>, n: seq<Block>, z: seq<Block>)
    ensures FreeBytes(a + n + z) - FreeBytes(a + m + z) == FreeBytes(n) - FreeBytes(m)
    ensures LiveCount(a + n + z) - LiveCount(a + m + z) == LiveCount(n) - LiveCount(m)
    ensures LiveBytes(a + n + z) - LiveBytes(a + m + z) == LiveBytes(n) - LiveBytes(m)
  {
    SpanAppend(a, m); SpanAppend(a + m, z);
    SpanAppend(a, n); SpanAppend(a + n, z);
  }

  // ----- liberarBloqueHeap -----

  /** Freeing a live block removes its payload from the live ones and nothing else. */
  lemma FreeCorrect(p: seq<Byte>, bs: seq<Block>, k: nat)
    requires Lays(p, 0, bs)
    requires k < |bs| && bs[k].used
    ensures Span(bs[..k]) + META + bs[k].size <= |p|
    ensures var x, b := Span(bs[..k]), Block(false, bs[k].size);
      var q, c := Paste(p, x, Meta(b)), bs[k := b];
      && Lays(q, 0, c) && Span(c) == Span(bs)
      && FreeBytes(c) == FreeBytes(bs) + b.size
      && LiveCount(c) == LiveCount(bs) - 1
      && LiveBytes(c) == LiveBytes(bs) - b.size
      && x + META in Live(p, 0, bs)
      && Live(q, 0, c) == Live(p, 0, bs) - {x + META}
  {
    hide Lays, Live, FreeBytes, LiveCount, LiveBytes;
    var b := Block(false, bs[k].size);
    var a, z := bs[..k], bs[k + 1..];
    var m, n := [bs[k]], [b];
    var x := Span(a);
    var y := x + META + b.size;
    assert bs == a + m + z && bs[k := b] == a + n + z;
    OneBlock(b); OneBlock(bs[k]);
    LaysMiddle(p, bs, k);
    SplitRun(p, 0, a, x, m, y, z);
    var q := Paste(p, x, Meta(b));
    LaysOne(p, x, b);
    ReplaceRun(p, q, 0, a, x, m, n, y, z);
    LiveOne(p, x, bs[k]);
    LiveOne(q, x, b);
    LiveKeys(p, 0, a); LiveKeys(p, y, z);
    PutBetween(Live(p, 0, a), Live(p, y, z), x + META, p[x + META..y]);
    Totals(a, m, n, z);
  }

  lemma LaysOne(p: seq<Byte>, x: nat, b: Block)
    requires IsInt(|p|) && x + META + b.size <= |p|
    ensures Lays(Paste(p, x, Meta(b)), x, [b])
  {
    PasteHere(p, x, Meta(b));
    assert Lays(Paste(p, x, Meta(b)), x + META + b.size, []);
  }

  // ----- a program writing into its own block -----

  /** A write that stays inside a live payload changes that payload only. */
  lemma WriteCorrect(p: seq<Byte>, bs: seq<Block>, k: nat, at: nat, d: seq<Byte>)
    requires Lays(p, 0, bs)
    requires k < |bs| && bs[k].used
    requires Span(bs[..k]) + META <= at && at + |d| <= Span(bs[..k]) + META + bs[k].size
    ensures Span(bs[..k]) + META + bs[k].size <= |p|
    ensures var x, q := Span(bs[..k]), Paste(p, at, d);
      && Lays(q, 0, bs)
      && x + META in Live(p, 0, bs)
      && |Live(p, 0, bs)[x + META]| == bs[k].size
      && Live(q, 0, bs)
         == Live(p, 0, bs)[x + META := Paste(Live(p, 0, bs)[x + META], at - x - META, d)]
  {
    hide Lays, Live;
    var a, m, z := bs[..k], [bs[k]], bs[k + 1..];
    var x := Span(a);
    var y := x + META + bs[k].size;
    assert bs == a + m + z;
    OneBlock(bs[k]);
    LaysMiddle(p, bs, k);
    SplitRun(p, 0, a, x, m, y, z);
    var q := Paste(p, at, d);
    WriteMiddle(p, x, bs[k], at, d);
    ReplaceRun(p, q, 0, a, x, m, m, y, z);
    LiveKeys(p, 0, a); LiveKeys(p, y, z);
    PutBetween(Live(p, 0, a), Live(p, y, z), x + META, p[x + META..y]);
    PutBetween(Live(p, 0, a), Live(p, y, z), x + META, q[x + META..y]);
  }

  lemma WriteMiddle(p: seq<Byte>, x: nat, b: Block, at: nat, d: seq<Byte>)
    requires Lays(p, x, [b]) && b.used
    requires x + META <= at && at + |d| <= x + META + b.size
    ensures x + META + b.size <= |p|
    ensures var q := Paste(p, at, d);
      && Lays(q, x, [b])
      && Live(p, x, [b]) == map[x + META := p[x + META..x + META + b.size]]
      && Live(q, x, [b]) == map[x + META := q[x + META..x + META + b.size]]
      && q[x + META..x + META + b.size] == Paste(p[x + META..x + META + b.size], at - x - META, d)
      && forall k :: 0 <= k < |p| && !(x <= k < x + META + b.size) ==> p[k] == q[k]
  {
    var y := x + META + b.size;
    assert Span([b]) == META + b.size;
    var q := Paste(p, at, d);
    assert p[x..x + META] == q[x..x + META];
    assert Lays(q, y, []);
    LiveOne(p, x, b);
    LiveOne(q, x, b);
    PasteInside(p, at, d, x + META, y);
  }
}
