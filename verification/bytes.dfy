/** Bytes and the C integers stored in them.

    The servers copy C structures with memcpy, so every integer that crosses a
    socket or lies in a page is four bytes, least significant byte first, in
    two's complement. */
module Bytes {

  type Byte = x: int | 0 <= x < 256

  const INT_BYTES: nat := 4
  const TWO_TO_THE_31 := 0x8000_0000
  const TWO_TO_THE_32 := 0x1_0000_0000
  /** size_t is eight bytes wide: comparisons with sizeof are made modulo 2^64. */
  const TWO_TO_THE_64 := 0x1_0000_0000_0000_0000

  /** A value of the C type int. */
  predicate IsInt(x: int) {
    -TWO_TO_THE_31 <= x < TWO_TO_THE_31
  }

  /** A value of the C type u_int32_t (t_size, t_puntero_instruccion). */
  predicate IsUint(x: int) {
    0 <= x < TWO_TO_THE_32
  }

  /** What an int becomes when C converts it to size_t. */
  function ToSizeT(x: int): (r: nat)
    requires -TWO_TO_THE_64 <= x < TWO_TO_THE_64
    ensures 0 <= x ==> r == x
    ensures x < 0 ==> r == x + TWO_TO_THE_64
  {
    x % TWO_TO_THE_64
  }

  // ----- little-endian naturals -----

  function Pow256(n: nat): (p: nat)
    ensures 0 < p
  {
    if n == 0 then 1 else 256 * Pow256(n - 1)
  }

  function EncodeNat(u: nat, n: nat): (b: seq<Byte>)
    ensures |b| == n
  {
    if n == 0 then [] else [u % 256] + EncodeNat(u / 256, n - 1)
  }

  function DecodeNat(b: seq<Byte>): (u: nat)
    ensures u < Pow256(|b|)
  {
    if b == [] then 0 else b[0] + 256 * DecodeNat(b[1..])
  }

  lemma {:induction false} DecodeEncodeNat(u: nat, n: nat)
    requires u < Pow256(n)
    ensures DecodeNat(EncodeNat(u, n)) == u
  {
    if n != 0 {
      DecodeEncodeNat(u / 256, n - 1);
      assert EncodeNat(u, n)[1..] == EncodeNat(u / 256, n - 1);
    }
  }

  // ----- C integers -----

  function EncodeInt(x: int): (b: seq<Byte>)
    requires IsInt(x)
    ensures |b| == INT_BYTES
  {
    EncodeNat(if x < 0 then x + TWO_TO_THE_32 else x, INT_BYTES)
  }

  function DecodeInt(b: seq<Byte>): (x: int)
    requires |b| == INT_BYTES
    ensures IsInt(x)
  {
    assert Pow256(4) == TWO_TO_THE_32;
    var u := DecodeNat(b);
    if u < TWO_TO_THE_31 then u else u - TWO_TO_THE_32
  }

  function EncodeUint(x: int): (b: seq<Byte>)
    requires IsUint(x)
    ensures |b| == INT_BYTES
  {
    EncodeNat(x, INT_BYTES)
  }

  function DecodeUint(b: seq<Byte>): (x: int)
    requires |b| == INT_BYTES
    ensures IsUint(x)
  {
    assert Pow256(4) == TWO_TO_THE_32;
    DecodeNat(b)
  }

  lemma DecodeEncodeInt(x: int)
    requires IsInt(x)
    ensures DecodeInt(EncodeInt(x)) == x
  {
    assert Pow256(4) == TWO_TO_THE_32;
    DecodeEncodeNat(if x < 0 then x + TWO_TO_THE_32 else x, INT_BYTES);
  }

  lemma DecodeEncodeUint(x: int)
    requires IsUint(x)
    ensures DecodeUint(EncodeUint(x)) == x
  {
    assert Pow256(4) == TWO_TO_THE_32;
    DecodeEncodeNat(x, INT_BYTES);
  }

  // ----- quotients and remainders -----

  lemma NextDivMod(k: nat, q: nat)
    requires q > 0
    ensures if k % q == q - 1 then (k + 1) % q == 0 && (k + 1) / q == k / q + 1
            else (k + 1) % q == k % q + 1 && (k + 1) / q == k / q
  {
    var d, m := k / q, k % q;
    assert k == q * d + m;
    if m == q - 1 {
      MultipleStep(q, d);
      DivMod(k + 1, q, d + 1, 0);
    } else {
      DivMod(k + 1, q, d, m + 1);
    }
  }

  lemma MultipleStep(q: nat, d: nat)
    ensures q * (d + 1) == q * d + q
  {
  }

  lemma DivMod(k: nat, q: nat, d: nat, m: nat)
    requires m < q && k == q * d + m
    ensures k / q == d && k % q == m
  {
    Multiples(q, k / q - d);
    assert q * (k / q - d) == q * (k / q) - q * d == m - k % q;
  }

  lemma Multiples(q: nat, e: int)
    ensures e >= 1 ==> q * e >= q
    ensures e <= -1 ==> q * e <= -1 * q
  {
  }

  // ----- stretches -----

  lemma TimesStep(a: nat, x: int)
    ensures (x + 1) * a == x * a + a
  {
  }

  lemma Within(m: seq<Byte>, a: nat, z: nat, lo: nat, hi: nat)
    requires a <= z <= |m| && lo <= hi <= z - a
    ensures m[a..z][lo..hi] == m[a + lo..a + hi]
  {
    var l, r := m[a..z][lo..hi], m[a + lo..a + hi];
    forall k | 0 <= k < |l|
      ensures l[k] == r[k]
    {
      assert l[k] == m[a..z][lo + k];
    }
  }

  lemma Joins(b: seq<Byte>, lo: nat, mid: nat, hi: nat)
    requires lo <= mid <= hi <= |b|
    ensures b[lo..mid] + b[mid..hi] == b[lo..hi]
  {
  }

  // ----- memcpy -----

  /** The buffer after memcpy(s + at, d, |d|). */
  function Paste(s: seq<Byte>, at: nat, d: seq<Byte>): (r: seq<Byte>)
    requires at + |d| <= |s|
    ensures |r| == |s|
  {
    s[..at] + d + s[at + |d|..]
  }

  /** A stretch that memcpy did not reach keeps its bytes. */
  lemma PasteElsewhere(s: seq<Byte>, at: nat, d: seq<Byte>, lo: nat, hi: nat)
    requires at + |d| <= |s|
    requires lo <= hi <= |s|
    requires hi <= at || at + |d| <= lo
    ensures Paste(s, at, d)[lo..hi] == s[lo..hi]
  {
    assert forall k :: lo <= k < hi ==> Paste(s, at, d)[k] == s[k];
  }

  lemma PasteHere(s: seq<Byte>, at: nat, d: seq<Byte>)
    requires at + |d| <= |s|
    ensures Paste(s, at, d)[at..at + |d|] == d
  {
  }

  /** memcpy inside a stretch is memcpy on that stretch alone. */
  lemma PasteInside(s: seq<Byte>, at: nat, d: seq<Byte>, lo: nat, hi: nat)
    requires lo <= at && at + |d| <= hi <= |s|
    ensures Paste(s, at, d)[lo..hi] == Paste(s[lo..hi], at - lo, d)
  {
    var l, r := Paste(s, at, d)[lo..hi], Paste(s[lo..hi], at - lo, d);
    forall k | 0 <= k < |l|
      ensures l[k] == r[k]
    {
      PasteByte(s, at, d, lo + k);
      PasteByte(s[lo..hi], at - lo, d, k);
    }
  }

  lemma PasteByte(s: seq<Byte>, at: nat, d: seq<Byte>, k: nat)
    requires at + |d| <= |s| && k < |s|
    ensures Paste(s, at, d)[k] == if at <= k < at + |d| then d[k - at] else s[k]
  {
  }

  method Memcpy(a: array<Byte>, at: nat, d: seq<Byte>)
    requires at + |d| <= a.Length
    modifies a
    ensures a[..] == Paste(old(a[..]), at, d)
  {
    forall i | 0 <= i < |d| {
      a[at + i] := d[i];
    }
  }
}
