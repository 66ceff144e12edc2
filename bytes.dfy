/**
 * Byte and word helpers shared by the AES and SHA-256 models.
 *
 * Both ciphers work on 32-bit words assembled from four bytes in
 * big-endian order (most significant byte first).  `Pack` is that
 * assembly; `Byte0`..`Byte3` take a word apart again.  `GetU32` and
 * `PutU32` are the load/store macros of rijndael.c.
 */
module Bytes {

  /** The word whose bytes, most significant first, are b0, b1, b2, b3. */
  function Pack(b0: bv8, b1: bv8, b2: bv8, b3: bv8): bv32
  {
    (b0 as bv32 << 24) ^ (b1 as bv32 << 16) ^ (b2 as bv32 << 8) ^ (b3 as bv32)
  }

  /** Bits 31..24 of w: `w >> 24`. */
  function Byte0(w: bv32): bv8 { (w >> 24) as bv8 }
  /** Bits 23..16 of w: `(w >> 16) & 0xff`, or the truncating cast `(uint8_t)(w >> 16)`. */
  function Byte1(w: bv32): bv8 { ((w >> 16) & 0xff) as bv8 }
  /** Bits 15..8 of w. */
  function Byte2(w: bv32): bv8 { ((w >> 8) & 0xff) as bv8 }
  /** Bits 7..0 of w. */
  function Byte3(w: bv32): bv8 { (w & 0xff) as bv8 }

  /** GETU32: the big-endian word stored at s[off..off+4]. */
  function GetU32(s: seq<bv8>, off: nat): bv32
    requires off + 4 <= |s|
  {
    Pack(s[off], s[off + 1], s[off + 2], s[off + 3])
  }

  /** PUTU32: the four bytes of w, most significant first. */
  function PutU32(w: bv32): (r: seq<bv8>)
    ensures |r| == 4
  {
    [Byte0(w), Byte1(w), Byte2(w), Byte3(w)]
  }

  /** Taking a packed word apart gives back the four bytes. */
  lemma UnpackPack(b0: bv8, b1: bv8, b2: bv8, b3: bv8)
    ensures Byte0(Pack(b0, b1, b2, b3)) == b0 && Byte1(Pack(b0, b1, b2, b3)) == b1
    ensures Byte2(Pack(b0, b1, b2, b3)) == b2 && Byte3(Pack(b0, b1, b2, b3)) == b3
  {
  }

  /** Packing the four bytes of a word gives back the word. */
  lemma PackUnpack(w: bv32)
    ensures Pack(Byte0(w), Byte1(w), Byte2(w), Byte3(w)) == w
  {
  }

  /** GETU32 of PUTU32(w) is w. */
  lemma GetPutU32(w: bv32)
    ensures GetU32(PutU32(w), 0) == w
  {
    PackUnpack(w);
  }

  /** PUTU32 of GETU32(s, off) reproduces the four bytes s[off..off+4]. */
  lemma PutGetU32(s: seq<bv8>, off: nat)
    requires off + 4 <= |s|
    ensures PutU32(GetU32(s, off)) == s[off..off + 4]
  {
    UnpackPack(s[off], s[off + 1], s[off + 2], s[off + 3]);
  }

  /** The four shifted bytes occupy disjoint bits, so OR-ing them (as SHA-256 does) is packing. */
  lemma PackIsOr(b0: bv8, b1: bv8, b2: bv8, b3: bv8)
    ensures (b0 as bv32 << 24) | (b1 as bv32 << 16) | (b2 as bv32 << 8) | (b3 as bv32)
         == Pack(b0, b1, b2, b3)
  {
  }

  /** Packing commutes with XOR, byte by byte. */
  lemma PackXor(a0: bv8, a1: bv8, a2: bv8, a3: bv8, b0: bv8, b1: bv8, b2: bv8, b3: bv8)
    ensures Pack(a0, a1, a2, a3) ^ Pack(b0, b1, b2, b3) == Pack(a0 ^ b0, a1 ^ b1, a2 ^ b2, a3 ^ b3)
  {
  }

  /** Four packed words XOR-ed together: byte by byte. */
  lemma PackXor4(a0: bv8, a1: bv8, a2: bv8, a3: bv8, b0: bv8, b1: bv8, b2: bv8, b3: bv8,
                 c0: bv8, c1: bv8, c2: bv8, c3: bv8, d0: bv8, d1: bv8, d2: bv8, d3: bv8)
    ensures Pack(a0, a1, a2, a3) ^ Pack(b0, b1, b2, b3) ^ Pack(c0, c1, c2, c3) ^ Pack(d0, d1, d2, d3)
         == Pack(a0 ^ b0 ^ c0 ^ d0, a1 ^ b1 ^ c1 ^ d1, a2 ^ b2 ^ c2 ^ d2, a3 ^ b3 ^ c3 ^ d3)
  {
  }

  /** Taking bytes commutes with XOR. */
  lemma BytesXor(x: bv32, y: bv32)
    ensures Byte0(x ^ y) == Byte0(x) ^ Byte0(y) && Byte1(x ^ y) == Byte1(x) ^ Byte1(y)
    ensures Byte2(x ^ y) == Byte2(x) ^ Byte2(y) && Byte3(x ^ y) == Byte3(x) ^ Byte3(y)
  {
  }
}
