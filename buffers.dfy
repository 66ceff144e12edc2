/**
 * Byte buffers: the values the C code builds in its arrays (zero runs,
 * XOR-ed pads) and the memory primitives it uses on them (a single store,
 * memset to zero, memcpy).
 */
module Buffers {

  /** n zero bytes. */
  function Zeros(n: nat): (r: seq<bv8>)
    ensures |r| == n && forall i :: 0 <= i < n ==> r[i] == 0
  {
    seq(n, _ => 0)
  }

  /** The XOR of two bytes. */
  function Xor8(a: bv8, b: bv8): bv8
  {
    a ^ b
  }

  /** Every byte of s XOR-ed with the byte p. */
  function XorByte(s: seq<bv8>, p: bv8): (r: seq<bv8>)
    ensures |r| == |s| && forall i :: 0 <= i < |s| ==> r[i] == Xor8(s[i], p)
  {
    seq(|s|, i requires 0 <= i < |s| => Xor8(s[i], p))
  }

  /** The byte-wise XOR of two sequences of the same length. */
  function XorSeq(a: seq<bv8>, b: seq<bv8>): (r: seq<bv8>)
    requires |a| == |b|
    ensures |r| == |a| && forall i :: 0 <= i < |a| ==> r[i] == Xor8(a[i], b[i])
  {
    seq(|a|, i requires 0 <= i < |a| => Xor8(a[i], b[i]))
  }

  /** XOR with the same byte twice is the identity. */
  lemma XorByteTwice(s: seq<bv8>, p: bv8)
    ensures XorByte(XorByte(s, p), p) == s
  {
    assert forall i :: 0 <= i < |s| ==> XorByte(XorByte(s, p), p)[i] == s[i];
  }

  /** One store into a byte array. */
  method PutByte(a: array<bv8>, x: nat, b: bv8)
    requires x < a.Length
    modifies a
    ensures a[..] == old(a[..])[x := b]
  {
    a[x] := b;
  }

  /** memset(a, 0, n). */
  method ZeroFill(a: array<bv8>, n: nat)
    requires n <= a.Length
    modifies a
    ensures a[..] == Zeros(n) + old(a[n..])
  {
    forall i | 0 <= i < n {
      a[i] := 0;
    }
    assert a[..] == Zeros(n) + old(a[n..]);
  }

  /** One more byte copied: the next byte of src replaces the byte of d at at + i. */
  lemma CopyStep(d: seq<bv8>, at: nat, src: seq<bv8>, i: nat)
    requires i < |src| && at + |src| <= |d|
    ensures (d[..at] + src[..i] + d[at + i..])[at + i := src[i]] == d[..at] + src[..i + 1] + d[at + i + 1..]
  {
    var l, r := (d[..at] + src[..i] + d[at + i..])[at + i := src[i]], d[..at] + src[..i + 1] + d[at + i + 1..];
    assert forall j :: 0 <= j < |l| ==> l[j] == r[j];
  }

  /** memcpy(dst + at, src, |src|). */
  method CopyAt(dst: array<bv8>, at: nat, src: seq<bv8>)
    requires at + |src| <= dst.Length
    modifies dst
    ensures dst[..] == old(dst[..at]) + src + old(dst[at + |src|..])
    ensures at == 0 && |src| == dst.Length ==> dst[..] == src
  {
    ghost var d0 := dst[..];
    var i := 0;
    while i < |src|
      invariant 0 <= i <= |src|
      invariant dst[..] == d0[..at] + src[..i] + d0[at + i..]
    {
      CopyStep(d0, at, src, i);
      PutByte(dst, at + i, src[i]);
      i := i + 1;
    }
    assert src[..i] == src;
    assert at == 0 && |src| == dst.Length ==> d0[..at] == [] && d0[at + |src|..] == [];
  }
}
