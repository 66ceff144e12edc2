/**
 * The SHA-256 code of pbkdf2.c: the context struct with its buffer of
 * pending bytes, and sha256_init, sha256_update, sha256_transform and
 * sha256_finalize, each proved against the definitions of Sha256Spec.
 */
module Sha256 {
  import opened Bytes
  import opened Sha256Spec
  import opened Buffers

  /** Words 0..15 of the schedule from the big-endian bytes of the block (the first loop of sha256_transform). */
  method LoadSchedule(block: array<bv8>, ghost blk: seq<bv8>) returns (m: array<bv32>)
    requires block.Length >= BlockSize && blk == block[..BlockSize]
    ensures fresh(m) && m.Length == 64 && m[..] == Schedule(blk, 64)
  {
    m := new bv32[64];
    var i, j := 0, 0;
    while i < 16
      invariant 0 <= i <= 16 && j == 4 * i
      invariant m[..i] == BlockWords(blk, i)
    {
      m[i] := LoadWord(block[j], block[j + 1], block[j + 2], block[j + 3]);
      assert m[..i + 1] == m[..i] + [m[i]];
      i, j := i + 1, j + 4;
    }
    ExtendSchedule(m, blk);
  }

  /** Words 16..63 of the schedule (the second loop of sha256_transform). */
  method ExtendSchedule(m: array<bv32>, ghost blk: seq<bv8>)
    requires |blk| == BlockSize && m.Length == 64 && m[..16] == BlockWords(blk, 16)
    modifies m
    ensures m[..] == Schedule(blk, 64)
  {
    var i := 16;
    while i < 64
      invariant 16 <= i <= 64
      invariant m[..i] == Schedule(blk, i)
    {
      ghost var ws := m[..i];
      m[i] := Add(Add(Add(Sig1(m[i - 2]), m[i - 7]), Sig0(m[i - 15])), m[i - 16]);
      assert m[i] == NextW(ws);
      assert m[..i + 1] == ws + [m[i]];
      i := i + 1;
    }
    assert m[..] == m[..i];
  }

  /** The feed-forward of sha256_transform: each working variable is added to its state word. */
  method FeedForward(state: array<bv32>, a: bv32, b: bv32, c: bv32, d: bv32, e: bv32, f: bv32, g: bv32, h: bv32)
    requires state.Length == 8
    modifies state
    ensures state[..] == [Add(old(state[0]), a), Add(old(state[1]), b), Add(old(state[2]), c), Add(old(state[3]), d),
                          Add(old(state[4]), e), Add(old(state[5]), f), Add(old(state[6]), g), Add(old(state[7]), h)]
  {
    state[0] := Add(state[0], a);
    state[1] := Add(state[1], b);
    state[2] := Add(state[2], c);
    state[3] := Add(state[3], d);
    state[4] := Add(state[4], e);
    state[5] := Add(state[5], f);
    state[6] := Add(state[6], g);
    state[7] := Add(state[7], h);
    EightWords(state[..]);
  }

  /** An eight-word sequence is the display of its words. */
  lemma EightWords(s: seq<bv32>)
    requires |s| == 8
    ensures s == [s[0], s[1], s[2], s[3], s[4], s[5], s[6], s[7]]
  { }

  /** The eight state words that sha256_init stores. */
  method SetInitialHash(state: array<bv32>)
    requires state.Length == 8
    modifies state
    ensures state[..] == H0
  {
    state[0] := 0x6a09e667;
    state[1] := 0xbb67ae85;
    state[2] := 0x3c6ef372;
    state[3] := 0xa54ff53a;
    state[4] := 0x510e527f;
    state[5] := 0x9b05688c;
    state[6] := 0x1f83d9ab;
    state[7] := 0x5be0cd19;
  }

  /** The byte `(w >> (24 - 8 * i)) & 0xff` that sha256_finalize stores for word w. */
  function DigestByte(w: bv32, i: nat): (r: bv8)
    requires i < 4
    ensures r == PutU32(w)[i]
  {
    DigestByteIs(w, i);
    ((w >> (24 - 8 * i)) & 0xff) as bv8
  }

  lemma DigestByteIs(w: bv32, i: nat)
    requires i < 4
    ensures ((w >> (24 - 8 * i)) & 0xff) as bv8 == PutU32(w)[i]
  {
    if i == 0 {
      assert 24 - 8 * i == 24;
      HighByte(w);
    } else if i == 1 {
      assert 24 - 8 * i == 16;
    } else if i == 2 {
    } else {
      assert 24 - 8 * i == 0;
      LowByte(w);
    }
  }

  /** Byte q of words 0..j-1 of hv, stored at q, q + 4, ..., q + 4 * (j - 1) of h. */
  ghost function Column(hv: seq<bv32>, h: seq<bv8>, q: nat, j: nat): (r: seq<bv8>)
    requires |hv| == 8 && |h| >= DigestSize && q < 4 && j <= 8
    ensures |r| == |h|
  {
    if j == 0 then h else Column(hv, h, q, j - 1)[q + 4 * (j - 1) := DigestByte(hv[j - 1], q)]
  }

  /** h after the first n iterations of the digest loop of sha256_finalize. */
  ghost function Columns(hv: seq<bv32>, h: seq<bv8>, n: nat): (r: seq<bv8>)
    requires |hv| == 8 && |h| >= DigestSize && n <= 4
    ensures |r| == |h|
  {
    if n == 0 then h else Column(hv, Columns(hv, h, n - 1), n - 1, 8)
  }

  lemma {:induction false} ColumnAt(hv: seq<bv32>, h: seq<bv8>, q: nat, j: nat, k: nat, r: nat)
    requires |hv| == 8 && |h| >= DigestSize && q < 4 && j <= 8 && r < 4 && 4 * k + r < |h|
    ensures Column(hv, h, q, j)[4 * k + r] == if k < j && r == q then PutU32(hv[k])[q] else h[4 * k + r]
  {
    if j > 0 {
      ColumnAt(hv, h, q, j - 1, k, r);
    }
  }

  lemma {:induction false} ColumnsAt(hv: seq<bv32>, h: seq<bv8>, n: nat, k: nat, r: nat)
    requires |hv| == 8 && |h| >= DigestSize && n <= 4 && r < 4 && 4 * k + r < |h|
    ensures Columns(hv, h, n)[4 * k + r] == if k < 8 && r < n then PutU32(hv[k])[r] else h[4 * k + r]
  {
    if n > 0 {
      ColumnsAt(hv, h, n - 1, k, r);
      ColumnAt(hv, Columns(hv, h, n - 1), n - 1, 8, k, r);
    }
  }

  /** After its four iterations the digest loop has stored the digest, and nothing beyond it. */
  lemma ColumnsDigest(hv: seq<bv32>, h: seq<bv8>)
    requires |hv| == 8 && |h| >= DigestSize
    ensures Columns(hv, h, 4)[..DigestSize] == Digest(hv) && Columns(hv, h, 4)[DigestSize..] == h[DigestSize..]
  {
    forall x | 0 <= x < |h| ensures Columns(hv, h, 4)[x] == if x < DigestSize then Digest(hv)[x] else h[x] {
      ColumnsAt(hv, h, 4, x / 4, x % 4);
    }
  }

  /** One iteration of the digest loop: byte i of every state word. */
  method EmitColumn(state: array<bv32>, hash: array<bv8>, i: nat)
    requires state.Length == 8 && hash.Length >= DigestSize && i < 4
    modifies hash
    ensures hash[..] == Column(state[..], old(hash[..]), i, 8)
  {
    ghost var h0 := hash[..];
    PutByte(hash, i, DigestByte(state[0], i));
    assert hash[..] == Column(state[..], h0, i, 1);
    PutByte(hash, i + 4, DigestByte(state[1], i));
    assert hash[..] == Column(state[..], h0, i, 2);
    PutByte(hash, i + 8, DigestByte(state[2], i));
    assert hash[..] == Column(state[..], h0, i, 3);
    PutByte(hash, i + 12, DigestByte(state[3], i));
    assert hash[..] == Column(state[..], h0, i, 4);
    PutByte(hash, i + 16, DigestByte(state[4], i));
    assert hash[..] == Column(state[..], h0, i, 5);
    PutByte(hash, i + 20, DigestByte(state[5], i));
    assert hash[..] == Column(state[..], h0, i, 6);
    PutByte(hash, i + 24, DigestByte(state[6], i));
    assert hash[..] == Column(state[..], h0, i, 7);
    PutByte(hash, i + 28, DigestByte(state[7], i));
    assert hash[..] == Column(state[..], h0, i, 8);
  }

  /** The digest loop of sha256_finalize: word k goes big-endian to hash[4k..4k+4]. */
  method EmitDigest(state: array<bv32>, hash: array<bv8>)
    requires state.Length == 8 && hash.Length >= DigestSize
    modifies hash
    ensures hash[..DigestSize] == Digest(state[..])
    ensures hash[DigestSize..] == old(hash[DigestSize..])
  {
    ghost var h0 := hash[..];
    var i := 0;
    while i < 4
      invariant 0 <= i <= 4
      invariant hash[..] == Columns(state[..], h0, i)
    {
      EmitColumn(state, hash, i);
      i := i + 1;
    }
    ColumnsDigest(state[..], h0);
  }

  lemma HighByte(w: bv32)
    ensures ((w >> 24) & 0xff) as bv8 == Byte0(w)
  {
  }

  lemma LowByte(w: bv32)
    ensures ((w >> 0) & 0xff) as bv8 == Byte3(w)
  {
  }

  /** Eight stores at 56..63 replace the last eight bytes of a 64-byte buffer. */
  lemma LengthBytes(d0: seq<bv8>, d: seq<bv8>, hi: seq<bv8>, lo: seq<bv8>)
    requires |d0| == BlockSize && |hi| == 4 && |lo| == 4
    requires d == d0[63 := lo[3]][62 := lo[2]][61 := lo[1]][60 := lo[0]][59 := hi[3]][58 := hi[2]][57 := hi[1]][56 := hi[0]]
    ensures d == d0[..56] + hi + lo
  {
  }

  /** A tail of 56 bytes or more is compressed with its marker and zeros before the length block. */
  lemma MarkerBlockHash(hv: seq<bv32>, tail: seq<bv8>, blk: seq<bv8>, hv': seq<bv32>)
    requires |hv| == 8 && 56 <= |tail| < BlockSize && blk == tail + [0x80] + Zeros(63 - |tail|)
    requires hv' == Compress(hv, blk)
    ensures hv' == PadHash(hv, tail)
  {
  }

  /** The last block: the head, then the two counter words, is the head followed by the length field. */
  lemma LastBlockBytes(d: seq<bv8>, head: seq<bv8>, lo: u32, hi: u32, bits: nat)
    requires d == head + U32Bytes(hi) + U32Bytes(lo) && bits == Value64(lo, hi)
    ensures bits < Two64 && d == head + LengthField(bits)
  {
    LengthFieldHalves(lo, hi);
    assert head + U32Bytes(hi) + U32Bytes(lo) == head + (U32Bytes(hi) + U32Bytes(lo));
  }

  /** The bytes seen after one more step of a loop over input. */
  lemma Extend(m: seq<bv8>, m0: seq<bv8>, input: seq<bv8>, i: nat)
    ensures i < |input| && m == m0 + input[..i] ==> m + [input[i]] == m0 + input[..i + 1]
  {
    if i < |input| {
      assert input[..i + 1] == input[..i] + [input[i]];
    }
  }

  /**
   * The loop index of sha256_update is a 32-bit unsigned integer compared
   * with a size_t length: after k increments it holds k mod 2^32.
   */
  function IndexAfter(k: nat): (i: nat)
    ensures i < Two32 && (k < Two32 ==> i == k)
  {
    k % Two32
  }

  /**
   * For a length of 2^32 bytes or more the test i < len holds after any
   * number of increments, and 2^32 more increments bring i back to the
   * same byte: the loop as written never ends.
   */
  lemma UpdateNeverEnds(len: nat, k: nat)
    requires len >= Two32
    ensures IndexAfter(k) < len && IndexAfter(k + Two32) == IndexAfter(k)
  {
  }

  /**
   * struct sha256_context_t.  `consumed` is a ghost record of every byte
   * given to Update since Init; Valid() ties the C state to it.
   */
  class Context {
    var datalen: u32
    const state: array<bv32>
    const bitlen: array<u32>
    const data: array<bv8>
    ghost var consumed: seq<bv8>

    /** The arrays have the sizes of the struct's fields. */
    ghost predicate Shaped()
      reads this
    {
      state.Length == 8 && bitlen.Length == 2 && data.Length == BlockSize
    }

    /** The state, counter and buffer are those of a hash of `consumed` in progress. */
    ghost predicate Valid()
      reads this, state, bitlen, data
    {
      Shaped() && Absorbed(datalen, state[..], bitlen[0], bitlen[1], data[..], consumed)
    }

    constructor ()
      ensures Shaped() && fresh(state) && fresh(bitlen) && fresh(data)
    {
      datalen := 0;
      state := new bv32[8];
      bitlen := new u32[2];
      data := new bv8[BlockSize];
      consumed := [];
    }

    /** Every field of the struct is zero, as memset(&ctx, 0, sizeof ctx) leaves it. */
    ghost predicate Wiped()
      reads this, state, bitlen, data
    {
      Shaped() && datalen == 0 && (forall i :: 0 <= i < 8 ==> state[i] == 0)
      && bitlen[0] == 0 && bitlen[1] == 0 && data[..] == Zeros(BlockSize)
    }

    /** memset(&ctx, 0, sizeof(struct sha256_context_t)). */
    method Wipe()
      requires Shaped()
      modifies this, state, bitlen, data
      ensures Wiped() && consumed == old(consumed)
    {
      datalen := 0;
      forall i | 0 <= i < 8 {
        state[i] := 0;
      }
      bitlen[0], bitlen[1] := 0, 0;
      ZeroFill(data, BlockSize);
    }

    /** sha256_init: the initial hash value and an empty message. */
    method Init()
      requires Shaped()
      modifies this, state, bitlen
      ensures datalen == 0 && state[..] == H0 && bitlen[..] == [0, 0] && unchanged(data)
      ensures Valid() && consumed == []
    {
      datalen := 0;
      bitlen[0] := 0;
      bitlen[1] := 0;
      SetInitialHash(state);
      consumed := [];
      AbsorbedEmpty(data[..], consumed);
    }

    /** sha256_transform: compress one 64-byte block into the state. */
    method Transform(block: array<bv8>)
      requires state.Length == 8 && block.Length >= BlockSize
      modifies state
      ensures state[..] == Compress(old(state[..]), block[..BlockSize])
    {
      ghost var blk := block[..BlockSize];
      var m := LoadSchedule(block, blk);
      ghost var ws := m[..];
      var a, b, c, d, e, f, g, h := state[0], state[1], state[2], state[3], state[4], state[5], state[6], state[7];
      ghost var v0 := Vars(a, b, c, d, e, f, g, h);
      var i := 0;
      while i < 64
        invariant 0 <= i <= 64
        invariant Vars(a, b, c, d, e, f, g, h) == RoundsFrom(v0, ws, i)
        invariant m[..] == ws
        invariant unchanged(state)
      {
        var t1 := Add(Add(Add(Add(h, Ep1(e)), Ch(e, f, g)), K[i]), m[i]);
        var t2 := Add(Ep0(a), Maj(a, b, c));
        h := g;
        g := f;
        f := e;
        e := Add(d, t1);
        d := c;
        c := b;
        b := a;
        a := Add(t1, t2);
        i := i + 1;
      }
      FeedForward(state, a, b, c, d, e, f, g, h);
    }

    /** One byte of sha256_update: buffer it, and compress the buffer once it is full. */
    method Absorb(x: bv8)
      requires Valid()
      modifies this, state, bitlen, data
      ensures Valid() && consumed == old(consumed) + [x]
    {
      ghost var dl, hv, lo, hi, buf, m := datalen, state[..], bitlen[0], bitlen[1], data[..], consumed;
      data[datalen] := x;
      assert data[..] == buf[dl := x];
      datalen := datalen + 1;
      if datalen == 64 {
        assert data[..BlockSize] == data[..];
        Transform(data);
        CountBits(512);
        datalen := 0;
        AbsorbFull(dl, hv, lo, hi, buf, m, x);
      } else {
        AbsorbBuffered(dl, hv, lo, hi, buf, m, x);
      }
      consumed := m + [x];
    }

    /** SHA256_INT64_ADD32(bitlen[0], bitlen[1], c). */
    method CountBits(c: u32)
      requires bitlen.Length == 2
      modifies bitlen
      ensures (bitlen[0], bitlen[1]) == Int64Add32(old(bitlen[0]), old(bitlen[1]), c)
    {
      var r := Int64Add32(bitlen[0], bitlen[1], c);
      bitlen[0], bitlen[1] := r.0, r.1;
    }

    /** The padding loops of sha256_finalize: 0x80 after the pending bytes, then zeros up to end. */
    method PadTail(end: u32)
      requires Shaped() && datalen < end <= BlockSize
      modifies data
      ensures data[..end] == old(data[..datalen]) + [0x80] + Zeros(end - datalen - 1)
      ensures data[end..] == old(data[end..])
    {
      var i := datalen;
      data[i] := 0x80;
      i := i + 1;
      while i < end
        invariant datalen < i <= end
        invariant data[..i] == old(data[..datalen]) + [0x80] + Zeros(i - datalen - 1)
        invariant data[end..] == old(data[end..])
      {
        data[i] := 0;
        assert Zeros(i + 1 - datalen - 1) == Zeros(i - datalen - 1) + [0];
        assert data[..i + 1] == data[..i] + [0];
        i := i + 1;
      }
    }

    /** The length bytes of sha256_finalize: the high counter word into data[56..60], the low into data[60..64]. */
    method StoreLength()
      requires Shaped()
      modifies data
      ensures data[..] == old(data[..56]) + U32Bytes(bitlen[1]) + U32Bytes(bitlen[0])
    {
      ghost var d0 := data[..];
      PutByte(data, 63, (bitlen[0] % 0x100) as bv8);
      PutByte(data, 62, ((bitlen[0] / 0x100) % 0x100) as bv8);
      PutByte(data, 61, ((bitlen[0] / 0x1_0000) % 0x100) as bv8);
      PutByte(data, 60, (bitlen[0] / 0x100_0000) as bv8);
      PutByte(data, 59, (bitlen[1] % 0x100) as bv8);
      PutByte(data, 58, ((bitlen[1] / 0x100) % 0x100) as bv8);
      PutByte(data, 57, ((bitlen[1] / 0x1_0000) % 0x100) as bv8);
      PutByte(data, 56, (bitlen[1] / 0x100_0000) as bv8);
      LengthBytes(d0, data[..], U32Bytes(bitlen[1]), U32Bytes(bitlen[0]));
    }

    /** The branches of sha256_finalize: pad the pending bytes, with one more compression when the length does not fit. */
    method PadLast()
      requires Shaped() && datalen < BlockSize
      modifies state, data
      ensures state[..] == PadHash(old(state[..]), old(data[..datalen]))
      ensures data[..56] == LastHead(old(data[..datalen]))
    {
      ghost var tail, s0 := data[..datalen], state[..];
      if datalen < 56 {
        PadTail(56);
      } else {
        PadTail(64);
        ghost var blk := data[..BlockSize];
        assert blk == tail + [0x80] + Zeros(63 - |tail|);
        Transform(data);
        MarkerBlockHash(s0, tail, blk, state[..]);
        ZeroFill(data, 56);
        assert data[..56] == Zeros(56);
      }
    }

    /** The counter update and the length bytes of sha256_finalize, after the padding of Tail(m). */
    method LengthBlock(ghost m: seq<bv8>)
      requires Shaped() && datalen == |Tail(m)| && data[..56] == LastHead(Tail(m))
      requires Value64(bitlen[0], bitlen[1]) == (8 * |Full(m)|) % Two64
      modifies bitlen, data
      ensures data[..] == LastHead(Tail(m)) + LengthField((8 * |m|) % Two64)
      ensures Value64(bitlen[0], bitlen[1]) == (8 * |m|) % Two64
    {
      ghost var lo, hi := bitlen[0], bitlen[1];
      CountBits(datalen * 8);
      FinalCounter(lo, hi, m);
      ghost var b0, b1 := bitlen[0], bitlen[1];
      StoreLength();
      LastBlockBytes(data[..], LastHead(Tail(m)), b0, b1, (8 * |m|) % Two64);
    }

    /**
     * sha256_finalize before its digest loop: pad the pending bytes of m,
     * count them, append the bit length and compress the last block.
     */
    method FinalBlock(ghost m: seq<bv8>)
      requires Shaped() && datalen == |Tail(m)| && data[..datalen] == Tail(m)
      requires Value64(bitlen[0], bitlen[1]) == (8 * |Full(m)|) % Two64
      modifies state, bitlen, data
      ensures state[..] == Compress(PadHash(old(state[..]), Tail(m)), LastHead(Tail(m)) + LengthField((8 * |m|) % Two64))
      ensures Value64(bitlen[0], bitlen[1]) == (8 * |m|) % Two64
    {
      PadLast();
      LengthBlock(m);
      assert data[..BlockSize] == data[..];
      Transform(data);
    }

    /** sha256_finalize: the last block, then the digest loop. */
    method Finalize(hash: array<bv8>)
      requires Valid() && hash.Length >= DigestSize && hash != data
      modifies state, bitlen, data, hash
      ensures hash[..DigestSize] == Sha256(consumed)
      ensures hash[DigestSize..] == old(hash[DigestSize..])
      ensures state[..] == HashBlocks(H0, Pad(consumed))
      ensures Value64(bitlen[0], bitlen[1]) == (8 * |consumed|) % Two64
    {
      ghost var hv0 := state[..];
      FinalBlock(consumed);
      ghost var hv := state[..];
      FinalHash(consumed);
      assert hv == HashBlocks(H0, Pad(consumed));
      EmitDigest(state, hash);
      assert state[..] == hv;
    }

    /** sha256_update: absorb the bytes of input, one by one. */
    method Update(input: seq<bv8>)
      requires Valid()
      modifies this, state, bitlen, data
      ensures Valid() && consumed == old(consumed) + input
    {
      ghost var m0 := consumed;
      var i := 0;
      while i < |input|
        invariant 0 <= i <= |input|
        invariant Valid() && consumed == m0 + input[..i]
      {
        ghost var m := consumed;
        Absorb(input[i]);
        Extend(m, m0, input, i);
        i := i + 1;
      }
      assert input[..i] == input;
    }
  }
}
