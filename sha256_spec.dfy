/**
 * SHA-256 as FIPS 180-4 defines it, together with the word macros of
 * pbkdf2.c and the 64-bit bit counter kept in two 32-bit halves.
 *
 * Every 32-bit addition is written `Add(x, y)`: the same function in the
 * definitions here and in the code of Sha256, so that the two can be
 * matched term for term.
 */
module Sha256Spec {
  import opened Bytes
  import opened Buffers

  /** A value of C's `uint32_t`, as an integer. */
  type u32 = x: int | 0 <= x < 0x1_0000_0000

  const Two32: int := 0x1_0000_0000
  const Two64: int := 0x1_0000_0000_0000_0000

  /** SHA256_BLOCK_SIZE and SHA256_DIGEST_LENGTH. */
  const BlockSize: nat := 64
  const DigestSize: nat := 32

  // ---------------------------------------------------------------------
  // Word functions (FIPS 180-4 sections 3.2 and 4.1.2)
  // ---------------------------------------------------------------------

  /** Addition modulo 2^32, the `+` of `uint32_t`. */
  function Add(x: bv32, y: bv32): bv32 { x + y }

  /** SHA256_ROTR: rotation right by n bits. */
  function Rotr(x: bv32, n: nat): bv32
    requires 0 < n < 32
  {
    (x >> n) | (x << (32 - n))
  }

  /** SHA256_ROTL: rotation left by n bits. */
  function Rotl(x: bv32, n: nat): bv32
    requires 0 < n < 32
  {
    (x << n) | (x >> (32 - n))
  }

  /** A left rotation is the right rotation by the complementary amount. */
  lemma RotlRotr(x: bv32, n: nat)
    requires 0 < n < 32
    ensures Rotl(x, n) == Rotr(x, 32 - n)
  {
  }

  function Ch(x: bv32, y: bv32, z: bv32): bv32 { (x & y) ^ (!x & z) }
  function Maj(x: bv32, y: bv32, z: bv32): bv32 { (x & y) ^ (x & z) ^ (y & z) }
  /** The upper-case Sigma functions of the rounds. */
  function Ep0(x: bv32): bv32 { Rotr(x, 2) ^ Rotr(x, 13) ^ Rotr(x, 22) }
  function Ep1(x: bv32): bv32 { Rotr(x, 6) ^ Rotr(x, 11) ^ Rotr(x, 25) }
  /** The lower-case sigma functions of the message schedule. */
  function Sig0(x: bv32): bv32 { Rotr(x, 7) ^ Rotr(x, 18) ^ (x >> 3) }
  function Sig1(x: bv32): bv32 { Rotr(x, 17) ^ Rotr(x, 19) ^ (x >> 10) }

  /** The round constants K0..K63 (FIPS 180-4 section 4.2.2). */
  const K: seq<bv32> := [
    0x428a2f98, 0x71374491, 0xb5c0fbcf, 0xe9b5dba5, 0x3956c25b, 0x59f111f1, 0x923f82a4, 0xab1c5ed5,
    0xd807aa98, 0x12835b01, 0x243185be, 0x550c7dc3, 0x72be5d74, 0x80deb1fe, 0x9bdc06a7, 0xc19bf174,
    0xe49b69c1, 0xefbe4786, 0x0fc19dc6, 0x240ca1cc, 0x2de92c6f, 0x4a7484aa, 0x5cb0a9dc, 0x76f988da,
    0x983e5152, 0xa831c66d, 0xb00327c8, 0xbf597fc7, 0xc6e00bf3, 0xd5a79147, 0x06ca6351, 0x14292967,
    0x27b70a85, 0x2e1b2138, 0x4d2c6dfc, 0x53380d13, 0x650a7354, 0x766a0abb, 0x81c2c92e, 0x92722c85,
    0xa2bfe8a1, 0xa81a664b, 0xc24b8b70, 0xc76c51a3, 0xd192e819, 0xd6990624, 0xf40e3585, 0x106aa070,
    0x19a4c116, 0x1e376c08, 0x2748774c, 0x34b0bcb5, 0x391c0cb3, 0x4ed8aa4a, 0x5b9cca4f, 0x682e6ff3,
    0x748f82ee, 0x78a5636f, 0x84c87814, 0x8cc70208, 0x90befffa, 0xa4506ceb, 0xbef9a3f7, 0xc67178f2]

  /** The initial hash value H(0) (FIPS 180-4 section 5.3.3). */
  const H0: seq<bv32> := [
    0x6a09e667, 0xbb67ae85, 0x3c6ef372, 0xa54ff53a, 0x510e527f, 0x9b05688c, 0x1f83d9ab, 0x5be0cd19]

  // ---------------------------------------------------------------------
  // The compression function (FIPS 180-4 section 6.2.2)
  // ---------------------------------------------------------------------

  /** Four bytes OR-ed into a word, most significant first, as sha256_transform loads them. */
  function LoadWord(b0: bv8, b1: bv8, b2: bv8, b3: bv8): (w: bv32)
    ensures w == Pack(b0, b1, b2, b3)
  {
    PackIsOr(b0, b1, b2, b3);
    (b0 as bv32 << 24) | (b1 as bv32 << 16) | (b2 as bv32 << 8) | (b3 as bv32)
  }

  /** M(i)_t: word t of a 64-byte message block. */
  function BlockWord(block: seq<bv8>, t: nat): bv32
    requires 4 * t + 4 <= |block|
  {
    LoadWord(block[4 * t], block[4 * t + 1], block[4 * t + 2], block[4 * t + 3])
  }

  /** The first n words M(i)_0 .. M(i)_{n-1} of a block. */
  function BlockWords(block: seq<bv8>, n: nat): (ws: seq<bv32>)
    requires |block| == BlockSize && n <= 16
    ensures |ws| == n
  {
    if n == 0 then [] else BlockWords(block, n - 1) + [BlockWord(block, n - 1)]
  }

  /** The next schedule word W_t, from W_0 .. W_{t-1}. */
  function NextW(ws: seq<bv32>): bv32
    requires |ws| >= 16
  {
    Add(Add(Add(Sig1(ws[|ws| - 2]), ws[|ws| - 7]), Sig0(ws[|ws| - 15])), ws[|ws| - 16])
  }

  /** W_0 .. W_{n-1}: the message schedule of a block, up to n words. */
  function Schedule(block: seq<bv8>, n: nat): (ws: seq<bv32>)
    requires |block| == BlockSize && 16 <= n <= 64
    ensures |ws| == n
  {
    if n == 16 then BlockWords(block, 16)
    else
      var ws := Schedule(block, n - 1);
      ws + [NextW(ws)]
  }

  /** The eight working variables a..h. */
  datatype Vars = Vars(a: bv32, b: bv32, c: bv32, d: bv32, e: bv32, f: bv32, g: bv32, h: bv32)

  /** One round: T1, T2 and the shift of the working variables. */
  function Step(a: bv32, b: bv32, c: bv32, d: bv32, e: bv32, f: bv32, g: bv32, h: bv32,
                k: bv32, w: bv32): Vars
  {
    var t1 := Add(Add(Add(Add(h, Ep1(e)), Ch(e, f, g)), k), w);
    var t2 := Add(Ep0(a), Maj(a, b, c));
    Vars(Add(t1, t2), a, b, c, Add(d, t1), e, f, g)
  }

  /** The working variables after rounds 0..t-1 with schedule ws, starting from v. */
  function RoundsFrom(v: Vars, ws: seq<bv32>, t: nat): Vars
    requires |ws| == 64 && t <= 64
  {
    if t == 0 then v
    else
      var u := RoundsFrom(v, ws, t - 1);
      Step(u.a, u.b, u.c, u.d, u.e, u.f, u.g, u.h, K[t - 1], ws[t - 1])
  }

  /** The intermediate hash value after one more block: H(i) from H(i-1). */
  function Compress(hv: seq<bv32>, block: seq<bv8>): (r: seq<bv32>)
    requires |hv| == 8 && |block| == BlockSize
    ensures |r| == 8
  {
    var v := RoundsFrom(Vars(hv[0], hv[1], hv[2], hv[3], hv[4], hv[5], hv[6], hv[7]), Schedule(block, 64), 64);
    [Add(hv[0], v.a), Add(hv[1], v.b), Add(hv[2], v.c), Add(hv[3], v.d),
     Add(hv[4], v.e), Add(hv[5], v.f), Add(hv[6], v.g), Add(hv[7], v.h)]
  }

  /** Removing one block from a whole number of blocks leaves a whole number of blocks. */
  lemma BlockCount(n: nat)
    requires n % BlockSize == 0 && n >= BlockSize
    ensures (n - BlockSize) % BlockSize == 0
  {
  }

  /** Two whole numbers of blocks make a whole number of blocks. */
  lemma BlockSum(n: nat, k: nat)
    requires n % BlockSize == 0 && k % BlockSize == 0
    ensures (n + k) % BlockSize == 0
  {
  }

  /** The hash value after compressing the blocks of m, in order, starting from hv. */
  function HashBlocks(hv: seq<bv32>, m: seq<bv8>): (r: seq<bv32>)
    requires |hv| == 8 && |m| % BlockSize == 0
    ensures |r| == 8
    decreases |m|
  {
    if m == [] then hv
    else
      BlockCount(|m|);
      HashBlocks(Compress(hv, m[..BlockSize]), m[BlockSize..])
  }

  /** Hashing two whole-block messages in turn is hashing their concatenation. */
  lemma {:induction false} HashBlocksConcat(hv: seq<bv32>, p: seq<bv8>, q: seq<bv8>)
    requires |hv| == 8 && |p| % BlockSize == 0 && |q| % BlockSize == 0
    ensures |p + q| % BlockSize == 0
    ensures HashBlocks(hv, p + q) == HashBlocks(HashBlocks(hv, p), q)
    decreases |p|
  {
    BlockSum(|p|, |q|);
    if p == [] {
      assert p + q == q;
    } else {
      BlockCount(|p|);
      BlockCount(|p + q|);
      assert (p + q)[..BlockSize] == p[..BlockSize];
      assert (p + q)[BlockSize..] == p[BlockSize..] + q;
      HashBlocksConcat(Compress(hv, p[..BlockSize]), p[BlockSize..], q);
    }
  }

  /** Hashing one more block is one more compression. */
  lemma HashBlocksAppend(hv: seq<bv32>, p: seq<bv8>, block: seq<bv8>)
    requires |hv| == 8 && |p| % BlockSize == 0 && |block| == BlockSize
    ensures |p + block| % BlockSize == 0
    ensures HashBlocks(hv, p + block) == Compress(HashBlocks(hv, p), block)
  {
    HashBlocksConcat(hv, p, block);
    assert block[..BlockSize] == block;
    assert block[BlockSize..] == [];
  }

  // ---------------------------------------------------------------------
  // Padding and the hash (FIPS 180-4 sections 5.1.1 and 6.2)
  // ---------------------------------------------------------------------

  /** The big-endian bytes of a 32-bit value. */
  function U32Bytes(x: u32): (r: seq<bv8>)
    ensures |r| == 4
  {
    [(x / 0x100_0000) as bv8, ((x / 0x1_0000) % 0x100) as bv8, ((x / 0x100) % 0x100) as bv8, (x % 0x100) as bv8]
  }

  /** The 64-bit big-endian length field. */
  function LengthField(bits: nat): (r: seq<bv8>)
    requires bits < Two64
    ensures |r| == 8
  {
    U32Bytes(bits / Two32) + U32Bytes(bits % Two32)
  }

  /** The number of zero bytes after 0x80: the least k with |m| + 1 + k + 8 a multiple of 64. */
  function PadZeros(len: nat): (k: nat)
    ensures k < BlockSize && (len + 1 + k + 8) % BlockSize == 0
  {
    (55 - len) % 64
  }

  /**
   * The padded message: m, the bit 1 as the byte 0x80, zeros, and the
   * bit length.  The length is taken modulo 2^64, as the two-word counter
   * of pbkdf2.c keeps it; FIPS 180-4 admits only messages shorter than
   * 2^64 bits, for which this is the length itself.
   */
  function Pad(m: seq<bv8>): (p: seq<bv8>)
    ensures |p| == |m| + 1 + PadZeros(|m|) + 8 && |p| % BlockSize == 0 && p[..|m|] == m
  {
    m + [0x80] + Zeros(PadZeros(|m|)) + LengthField((8 * |m|) % Two64)
  }

  /** The digest: the eight words of the final hash value, each big-endian; byte x is byte x % 4 of word x / 4. */
  function Digest(hv: seq<bv32>): (d: seq<bv8>)
    requires |hv| == 8
    ensures |d| == DigestSize
  {
    seq(DigestSize, x requires 0 <= x < DigestSize => PutU32(hv[x / 4])[x % 4])
  }

  /** SHA-256(m). */
  function Sha256(m: seq<bv8>): (d: seq<bv8>)
    ensures |d| == DigestSize
  {
    Digest(HashBlocks(H0, Pad(m)))
  }

  // ---------------------------------------------------------------------
  // The bit counter (SHA256_INT64_ADD32)
  // ---------------------------------------------------------------------

  /** The 64-bit value whose low half is lo and high half is hi. */
  function Value64(lo: u32, hi: u32): (v: nat)
    ensures v < Two64
  {
    hi * Two32 + lo
  }

  /**
   * SHA256_INT64_ADD32(a, b, c): add c to the low half a, carrying into the
   * high half b when the sum does not fit; both halves wrap like `uint32_t`.
   */
  function Int64Add32(lo: u32, hi: u32, c: u32): (r: (u32, u32))
    ensures Value64(r.0, r.1) == (Value64(lo, hi) + c) % Two64
  {
    if lo > 0xffff_ffff - c then ((lo + c) % Two32, (hi + 1) % Two32) else (lo + c, hi)
  }

  /** The two halves are the 64-bit value's high and low 32 bits, so the length field is their bytes. */
  lemma LengthFieldHalves(lo: u32, hi: u32)
    ensures LengthField(Value64(lo, hi)) == U32Bytes(hi) + U32Bytes(lo)
  {
    var v := Value64(lo, hi);
    assert v / Two32 == hi && v % Two32 == lo;
  }

  lemma ModMultiple(x: int, q: int)
    ensures (x + q * Two64) % Two64 == x % Two64
  {
  }

  /** Adding c to a counter that holds bits modulo 2^64 leaves bits + c modulo 2^64. */
  lemma CounterAdd(lo: u32, hi: u32, bits: nat, c: u32)
    requires Value64(lo, hi) == bits % Two64
    ensures var r := Int64Add32(lo, hi, c); Value64(r.0, r.1) == (bits + c) % Two64
  {
    var q := bits / Two64;
    assert bits == bits % Two64 + q * Two64;
    ModMultiple(bits % Two64 + c, q);
  }

  // ---------------------------------------------------------------------
  // The streaming context (struct sha256_context_t)
  // ---------------------------------------------------------------------

  /** The bytes of m that fill whole blocks. */
  function Full(m: seq<bv8>): (p: seq<bv8>)
    ensures |p| <= |m| && |p| % BlockSize == 0 && |m| - |p| < BlockSize && p == m[..|p|]
  {
    WholeBlocks(|m|);
    m[..|m| - |m| % BlockSize]
  }

  /** The bytes of m after its last whole block. */
  function Tail(m: seq<bv8>): (t: seq<bv8>)
    ensures |t| == |m| % BlockSize && Full(m) + t == m
  {
    WholeBlocks(|m|);
    m[|m| - |m| % BlockSize..]
  }

  lemma WholeBlocks(n: nat)
    ensures n % BlockSize <= n && (n - n % BlockSize) % BlockSize == 0
  {
  }

  lemma LengthSucc(n: nat)
    ensures (n + 1) % BlockSize == if n % BlockSize + 1 < BlockSize then n % BlockSize + 1 else 0
  {
  }

  /** A byte that does not complete a block joins the tail. */
  lemma TailSucc(m: seq<bv8>, b: bv8)
    requires |Tail(m)| + 1 < BlockSize
    ensures Full(m + [b]) == Full(m) && Tail(m + [b]) == Tail(m) + [b]
  {
    LengthSucc(|m|);
    assert (m + [b])[..|Full(m)|] == Full(m);
  }

  /** The byte that completes a block moves the tail into the whole blocks. */
  lemma TailFull(m: seq<bv8>, b: bv8)
    requires |Tail(m)| + 1 == BlockSize
    ensures Full(m + [b]) == Full(m) + (Tail(m) + [b]) && Tail(m + [b]) == []
  {
    LengthSucc(|m|);
    assert m + [b] == Full(m) + (Tail(m) + [b]);
  }

  /**
   * What a context holds once it has absorbed the bytes m: the bytes after
   * the last whole block wait in data[..datalen], the hash value covers
   * the whole blocks, and the bit counter counts their bits modulo 2^64.
   */
  predicate Absorbed(datalen: int, hv: seq<bv32>, lo: u32, hi: u32, data: seq<bv8>, m: seq<bv8>)
  {
    datalen == |Tail(m)| && |hv| == 8 && |data| == BlockSize
    && hv == HashBlocks(H0, Full(m))
    && data[..datalen] == Tail(m)
    && Value64(lo, hi) == (8 * |Full(m)|) % Two64
  }

  /** The buffer never holds a whole block: 0 <= datalen < 64. */
  lemma AbsorbedBounds(datalen: int, hv: seq<bv32>, lo: u32, hi: u32, data: seq<bv8>, m: seq<bv8>)
    requires Absorbed(datalen, hv, lo, hi, data, m)
    ensures 0 <= datalen < BlockSize && datalen == |m| % BlockSize
  {
  }

  /** The halves of a 64-bit value are its quotient and remainder by 2^32. */
  lemma Value64Halves(lo: u32, hi: u32)
    ensures Value64(lo, hi) / Two32 == hi && Value64(lo, hi) % Two32 == lo
  {
  }

  /**
   * The bytes absorbed determine the context: two contexts that absorbed
   * the same bytes (one update with a + b, or an update with a and then b)
   * agree on datalen, the hash value, both counter halves and the buffered bytes.
   */
  lemma AbsorbedUnique(datalen: int, hv: seq<bv32>, lo: u32, hi: u32, data: seq<bv8>,
                       datalen': int, hv': seq<bv32>, lo': u32, hi': u32, data': seq<bv8>, m: seq<bv8>)
    requires Absorbed(datalen, hv, lo, hi, data, m) && Absorbed(datalen', hv', lo', hi', data', m)
    ensures datalen == datalen' && hv == hv' && lo == lo' && hi == hi' && data[..datalen] == data'[..datalen']
  {
    Value64Halves(lo, hi);
    Value64Halves(lo', hi');
  }

  /** An empty message has no bits to count. */
  lemma CounterZero(m: seq<bv8>)
    requires |m| == 0
    ensures Value64(0, 0) == (8 * |Full(m)|) % Two64
  {
  }

  /** The fresh context of sha256_init has absorbed nothing. */
  lemma AbsorbedEmpty(data: seq<bv8>, m: seq<bv8>)
    requires |data| == BlockSize && |m| == 0
    ensures Absorbed(0, H0, 0, 0, data, m)
  {
    assert Full(m) == m;
    CounterZero(m);
  }

  /** One more byte that does not fill the block is only buffered. */
  lemma AbsorbBuffered(datalen: int, hv: seq<bv32>, lo: u32, hi: u32, data: seq<bv8>, m: seq<bv8>, b: bv8)
    requires Absorbed(datalen, hv, lo, hi, data, m) && datalen + 1 < BlockSize
    ensures Absorbed(datalen + 1, hv, lo, hi, data[datalen := b], m + [b])
  {
    TailSucc(m, b);
    assert data[datalen := b][..datalen + 1] == data[..datalen] + [b];
  }

  /** The byte that fills the block: the block is compressed and 512 bits are counted. */
  lemma AbsorbFull(datalen: int, hv: seq<bv32>, lo: u32, hi: u32, data: seq<bv8>, m: seq<bv8>, b: bv8)
    requires Absorbed(datalen, hv, lo, hi, data, m) && datalen + 1 == BlockSize
    ensures var c := Int64Add32(lo, hi, 512);
      Absorbed(0, Compress(hv, data[datalen := b]), c.0, c.1, data[datalen := b], m + [b])
  {
    TailFull(m, b);
    assert data[datalen := b] == Tail(m) + [b];
    HashBlocksAppend(H0, Full(m), Tail(m) + [b]);
    CounterAdd(lo, hi, 8 * |Full(m)|, 512);
  }

  // ---------------------------------------------------------------------
  // Finalization (padding of the last one or two blocks)
  // ---------------------------------------------------------------------

  /** The zero count of the padding, from the length of the tail. */
  lemma PadZerosTail(n: nat)
    ensures PadZeros(n) == if n % BlockSize < 56 then 55 - n % BlockSize else 119 - n % BlockSize
  {
  }

  /** The bit length of Full(m) + Tail(m). */
  lemma BitsSplit(m: seq<bv8>)
    ensures 8 * |Full(m)| + 8 * |Tail(m)| == 8 * |m|
  {
  }

  /** A tail shorter than 56 bytes leaves room for 0x80 and the length in its own block. */
  lemma PadOneBlock(m: seq<bv8>)
    requires |Tail(m)| < 56
    ensures Pad(m) == Full(m) + (Tail(m) + [0x80] + Zeros(55 - |Tail(m)|) + LengthField((8 * |m|) % Two64))
  {
    PadZerosTail(|m|);
  }

  /** A tail of 56 bytes or more is padded to a block, and one more block holds zeros and the length. */
  lemma PadTwoBlocks(m: seq<bv8>)
    requires |Tail(m)| >= 56
    ensures Pad(m) == Full(m) + (Tail(m) + [0x80] + Zeros(63 - |Tail(m)|))
                              + (Zeros(56) + LengthField((8 * |m|) % Two64))
  {
    PadZerosTail(|m|);
    assert Zeros(PadZeros(|m|)) == Zeros(63 - |Tail(m)|) + Zeros(56);
  }

  /** The hash of m when its padding fits in the last block. */
  lemma FinalOneBlock(m: seq<bv8>, block: seq<bv8>)
    requires |Tail(m)| < 56
    requires block == Tail(m) + [0x80] + Zeros(55 - |Tail(m)|) + LengthField((8 * |m|) % Two64)
    ensures Compress(HashBlocks(H0, Full(m)), block) == HashBlocks(H0, Pad(m))
  {
    PadOneBlock(m);
    HashBlocksAppend(H0, Full(m), block);
  }

  /** The hash of m when its padding needs one more block. */
  lemma FinalTwoBlocks(m: seq<bv8>, block1: seq<bv8>, block2: seq<bv8>)
    requires |Tail(m)| >= 56
    requires block1 == Tail(m) + [0x80] + Zeros(63 - |Tail(m)|)
    requires block2 == Zeros(56) + LengthField((8 * |m|) % Two64)
    ensures Compress(Compress(HashBlocks(H0, Full(m)), block1), block2) == HashBlocks(H0, Pad(m))
  {
    PadTwoBlocks(m);
    HashBlocksAppend(H0, Full(m), block1);
    HashBlocksAppend(H0, Full(m) + block1, block2);
    assert Full(m) + block1 + block2 == Full(m) + (Tail(m) + [0x80] + Zeros(63 - |Tail(m)|))
                              + (Zeros(56) + LengthField((8 * |m|) % Two64));
  }

  /** The counter after adding the bits of the tail holds the bit length of the whole message. */
  lemma FinalCounter(lo: u32, hi: u32, m: seq<bv8>)
    requires Value64(lo, hi) == (8 * |Full(m)|) % Two64
    ensures var c := Int64Add32(lo, hi, 8 * |Tail(m)|); Value64(c.0, c.1) == (8 * |m|) % Two64
  {
    BitsSplit(m);
    CounterAdd(lo, hi, 8 * |Full(m)|, 8 * |Tail(m)|);
  }

  /** The hash value before the last block: the tail needs a block of its own when the length does not fit after it. */
  function PadHash(hv: seq<bv32>, tail: seq<bv8>): (r: seq<bv32>)
    requires |hv| == 8 && |tail| < BlockSize
    ensures |r| == 8
  {
    if |tail| < 56 then hv else Compress(hv, tail + [0x80] + Zeros(63 - |tail|))
  }

  /** The first 56 bytes of the last block, before the length field. */
  function LastHead(tail: seq<bv8>): (r: seq<bv8>)
    requires |tail| < BlockSize
    ensures |r| == 56
  {
    if |tail| < 56 then tail + [0x80] + Zeros(55 - |tail|) else Zeros(56)
  }

  /** Finalization completes the hash of the padded message. */
  lemma FinalHash(m: seq<bv8>)
    ensures Compress(PadHash(HashBlocks(H0, Full(m)), Tail(m)), LastHead(Tail(m)) + LengthField((8 * |m|) % Two64))
            == HashBlocks(H0, Pad(m))
  {
    var t := Tail(m);
    if |t| < 56 {
      FinalOneBlock(m, LastHead(t) + LengthField((8 * |m|) % Two64));
    } else {
      FinalTwoBlocks(m, t + [0x80] + Zeros(63 - |t|), LastHead(t) + LengthField((8 * |m|) % Two64));
    }
  }
}
