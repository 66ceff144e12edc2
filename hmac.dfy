/**
 * hmac_sha256 of pbkdf2.c: HMAC-SHA256 as section 2 of RFC 2104 defines
 * it, and the C function, which refuses keys longer than 128 bytes.
 */
module Mac {
  import opened Buffers
  import opened Sha256Spec
  import Ctx = Sha256

  /** The inner and outer pad bytes of RFC 2104. */
  const IPad: bv8 := 0x36
  const OPad: bv8 := 0x5c

  /** The longest key hmac_sha256 accepts. */
  const MaxKeySize: nat := 128

  /** K of RFC 2104: a key longer than a block is replaced by its hash; zeros then fill the block. */
  function BlockKey(key: seq<bv8>): (k: seq<bv8>)
    ensures |k| == BlockSize
  {
    var k0 := if |key| > BlockSize then Sha256(key) else key;
    k0 + Zeros(BlockSize - |k0|)
  }

  /** HMAC-SHA256(key, msg) = H((K ^ opad) || H((K ^ ipad) || msg)). */
  function Hmac(key: seq<bv8>, msg: seq<bv8>): (mac: seq<bv8>)
    ensures |mac| == DigestSize
  {
    var k := BlockKey(key);
    Sha256(XorByte(k, OPad) + Sha256(XorByte(k, IPad) + msg))
  }

  /** A long key and its hash give the same MAC. */
  lemma HmacLongKey(key: seq<bv8>, msg: seq<bv8>)
    requires |key| > BlockSize
    ensures Hmac(key, msg) == Hmac(Sha256(key), msg)
  {
    assert BlockKey(key) == BlockKey(Sha256(key));
  }

  /** Zero bytes appended to a key that fits in a block do not change the MAC. */
  lemma HmacZeroPadding(key: seq<bv8>, n: nat, msg: seq<bv8>)
    requires |key| + n <= BlockSize
    ensures Hmac(key + Zeros(n), msg) == Hmac(key, msg)
  {
    assert BlockKey(key + Zeros(n)) == BlockKey(key);
  }

  /**
   * hmac_sha256 returns at once for a key longer than 128 bytes, so out
   * keeps what it held (HmacSha256's second ensures); for a 129-byte key
   * one of two prior contents of out is then not the MAC.
   */
  lemma LongKeyNotMac(msg: seq<bv8>)
    ensures var key := Zeros(MaxKeySize + 1);
            Zeros(DigestSize) != Hmac(key, msg) || XorByte(Zeros(DigestSize), 0xff) != Hmac(key, msg)
  {
    assert XorByte(Zeros(DigestSize), 0xff)[0] != Zeros(DigestSize)[0];
  }

  /** s with its first n bytes XOR-ed with p, one store at a time as the pad loop makes them. */
  ghost function XorPrefix(s: seq<bv8>, p: bv8, n: nat): (r: seq<bv8>)
    requires n <= |s|
    ensures |r| == |s|
  {
    if n == 0 then s else XorPrefix(s, p, n - 1)[n - 1 := Xor8(s[n - 1], p)]
  }

  /** The bytes of XorPrefix: XOR-ed below n, untouched from n on. */
  lemma {:induction false} XorPrefixAt(s: seq<bv8>, p: bv8, n: nat, j: nat)
    requires n <= |s| && j < |s|
    ensures XorPrefix(s, p, n)[j] == if j < n then Xor8(s[j], p) else s[j]
  {
    if n > 0 {
      XorPrefixAt(s, p, n - 1, j);
    }
  }

  /** Once every byte has been stored, XorPrefix is XorByte. */
  lemma XorPrefixAll(s: seq<bv8>, p: bv8)
    ensures XorPrefix(s, p, |s|) == XorByte(s, p)
  {
    forall j | 0 <= j < |s|
      ensures XorPrefix(s, p, |s|)[j] == XorByte(s, p)[j]
    {
      XorPrefixAt(s, p, |s|, j);
    }
  }

  /** The XOR loop of hmac_sha256: the two pads, in place. */
  method XorPads(ipad: array<bv8>, opad: array<bv8>)
    requires ipad.Length == BlockSize && opad.Length == BlockSize && ipad != opad
    modifies ipad, opad
    ensures ipad[..] == XorByte(old(ipad[..]), IPad) && opad[..] == XorByte(old(opad[..]), OPad)
  {
    ghost var i0, o0 := ipad[..], opad[..];
    var i := 0;
    while i < BlockSize
      invariant 0 <= i <= BlockSize
      invariant ipad[..] == XorPrefix(i0, IPad, i)
      invariant opad[..] == XorPrefix(o0, OPad, i)
    {
      XorPrefixAt(i0, IPad, i, i);
      XorPrefixAt(o0, OPad, i, i);
      PutByte(ipad, i, Xor8(ipad[i], IPad));
      PutByte(opad, i, Xor8(opad[i], OPad));
      i := i + 1;
    }
    XorPrefixAll(i0, IPad);
    XorPrefixAll(o0, OPad);
  }

  /** The hash of a long key into houtput, and the wipe of the context. */
  method HashKey(ctx: Ctx.Context, key: seq<bv8>, houtput: array<bv8>)
    requires ctx.Shaped()
    requires houtput.Length == DigestSize && houtput != ctx.data
    modifies ctx, ctx.state, ctx.bitlen, ctx.data, houtput
    ensures houtput[..] == Sha256(key) && ctx.Wiped()
  {
    ctx.Init();
    ctx.Update(key);
    assert ctx.consumed == key;
    ctx.Finalize(houtput);
    ghost var digest := houtput[..DigestSize];
    assert digest == Sha256(key);
    ctx.Wipe();
    assert houtput[..] == houtput[..DigestSize] == digest;
  }

  /** The key block of hmac_sha256 in both pads, and the hash of a long key. */
  method LoadKey(ctx: Ctx.Context, key: seq<bv8>, ipad: array<bv8>, opad: array<bv8>, houtput: array<bv8>)
    requires ctx.Shaped()
    requires ipad.Length == BlockSize && opad.Length == BlockSize && houtput.Length == DigestSize
    requires ipad != opad && houtput != ctx.data && ipad != houtput && opad != houtput
    requires ipad != ctx.data && opad != ctx.data
    modifies ctx, ctx.state, ctx.bitlen, ctx.data, ipad, opad, houtput
    ensures ipad[..] == BlockKey(key) && opad[..] == BlockKey(key)
    ensures |key| > BlockSize ==> houtput[..] == Sha256(key) && ctx.Wiped()
    ensures |key| <= BlockSize ==> houtput[..] == old(houtput[..])
    ensures ctx.Shaped()
  {
    ghost var ho := houtput[..];
    ZeroFill(ipad, BlockSize);
    ZeroFill(opad, BlockSize);
    ghost var z := Zeros(BlockSize);
    assert ipad[..] == z && opad[..] == z;
    if |key| > BlockSize {
      HashKey(ctx, key, houtput);
      var hk := houtput[..];
      CopyAt(ipad, 0, hk);
      PlacedFirst(ipad[..], z, hk);
      CopyAt(opad, 0, hk);
      PlacedFirst(opad[..], z, hk);
      BlockKeyOf(key, hk, z);
    } else {
      CopyAt(ipad, 0, key);
      PlacedFirst(ipad[..], z, key);
      CopyAt(opad, 0, key);
      PlacedFirst(opad[..], z, key);
      BlockKeyOf(key, key, z);
      assert houtput[..] == ho;
    }
  }

  /** The key block is the (possibly hashed) key followed by the rest of a zero block. */
  lemma BlockKeyOf(key: seq<bv8>, k0: seq<bv8>, z: seq<bv8>)
    requires k0 == (if |key| > BlockSize then Sha256(key) else key) && z == Zeros(BlockSize)
    ensures |k0| <= BlockSize && BlockKey(key) == k0 + z[|k0|..]
  {
    ZerosSuffix(z, |k0|);
  }

  /** Any suffix of a zero block is zeros. */
  lemma ZerosSuffix(z: seq<bv8>, n: nat)
    requires z == Zeros(BlockSize) && n <= BlockSize
    ensures z[n..] == Zeros(BlockSize - n)
  { }

  /** A copy to offset 0 leaves the source followed by the old bytes past it. */
  lemma PlacedFirst(d: seq<bv8>, d0: seq<bv8>, x: seq<bv8>)
    requires |x| <= |d0| && d == d0[..0] + x + d0[|x|..]
    ensures d == x + d0[|x|..]
  {
    assert d0[..0] == [];
  }

  /** sha256_init, two updates, sha256_finalize into out, and the wipe of the context. */
  method HashTwo(ctx: Ctx.Context, a: seq<bv8>, b: seq<bv8>, out: array<bv8>)
    requires ctx.Shaped()
    requires out.Length >= DigestSize && out != ctx.data
    modifies ctx, ctx.state, ctx.bitlen, ctx.data, out
    ensures out[..DigestSize] == Sha256(a + b) && out[DigestSize..] == old(out[DigestSize..])
    ensures ctx.Wiped()
  {
    ctx.Init();
    ctx.Update(a);
    assert ctx.consumed == a;
    ctx.Update(b);
    assert ctx.consumed == a + b;
    ghost var rest := out[DigestSize..];
    ctx.Finalize(out);
    ghost var digest := out[..DigestSize];
    assert digest == Sha256(a + b);
    ctx.Wipe();
    assert out[..DigestSize] == digest && out[DigestSize..] == rest;
  }

  /** The key block XOR-ed with ipad and with opad. */
  method KeyPads(ctx: Ctx.Context, key: seq<bv8>, ipad: array<bv8>, opad: array<bv8>, houtput: array<bv8>)
    requires ctx.Shaped()
    requires ipad.Length == BlockSize && opad.Length == BlockSize && houtput.Length == DigestSize
    requires ipad != opad && houtput != ctx.data && ipad != houtput && opad != houtput
    requires ipad != ctx.data && opad != ctx.data
    modifies ctx, ctx.state, ctx.bitlen, ctx.data, ipad, opad, houtput
    ensures ipad[..] == XorByte(BlockKey(key), IPad) && opad[..] == XorByte(BlockKey(key), OPad)
    ensures ctx.Shaped()
  {
    LoadKey(ctx, key, ipad, opad, houtput);
    XorPads(ipad, opad);
  }

  /** The inner hash into out, then the outer hash over it. */
  method MacInto(ctx: Ctx.Context, ipad: seq<bv8>, opad: seq<bv8>, msg: seq<bv8>, out: array<bv8>)
    requires ctx.Shaped() && |ipad| == BlockSize && |opad| == BlockSize
    requires out.Length >= DigestSize && out != ctx.data
    modifies ctx, ctx.state, ctx.bitlen, ctx.data, out
    ensures out[..DigestSize] == Sha256(opad + Sha256(ipad + msg))
    ensures out[DigestSize..] == old(out[DigestSize..]) && ctx.Wiped()
  {
    ghost var rest := out[DigestSize..];
    HashTwo(ctx, ipad, msg, out);
    var inner := out[..DigestSize];
    HashTwo(ctx, opad, inner, out);
    assert out[DigestSize..] == rest;
  }

  /**
   * hmac_sha256 after its key-length check: the MAC of msg under key, for
   * a key of any length.  The pads, the key hash and the context are left
   * zeroed.
   */
  method HmacCore(key: seq<bv8>, msg: seq<bv8>, out: array<bv8>)
    returns (ghost ipad: array<bv8>, ghost opad: array<bv8>, ghost houtput: array<bv8>, ghost ctx: Ctx.Context)
    requires out.Length >= DigestSize
    modifies out
    ensures out[..DigestSize] == Hmac(key, msg) && out[DigestSize..] == old(out[DigestSize..])
    ensures ipad[..] == Zeros(BlockSize) && opad[..] == Zeros(BlockSize) && houtput[..] == Zeros(DigestSize)
    ensures ctx.Wiped()
  {
    ghost var rest := out[DigestSize..];
    var c := new Ctx.Context();
    var hout := new bv8[DigestSize];
    var k_opad := new bv8[BlockSize];
    var k_ipad := new bv8[BlockSize];
    KeyPads(c, key, k_ipad, k_opad, hout);
    var ip, op := k_ipad[..], k_opad[..];
    MacInto(c, ip, op, msg, out);
    ghost var mac := out[..DigestSize];
    assert mac == Sha256(op + Sha256(ip + msg));
    assert mac == Hmac(key, msg);
    Scrub(k_ipad, k_opad, hout);
    assert out[..DigestSize] == mac && out[DigestSize..] == rest;
    ipad, opad, houtput, ctx := k_ipad, k_opad, hout, c;
  }

  /** The three memsets that end hmac_sha256. */
  method Scrub(ipad: array<bv8>, opad: array<bv8>, houtput: array<bv8>)
    requires ipad.Length == BlockSize && opad.Length == BlockSize && houtput.Length == DigestSize
    requires ipad != opad && ipad != houtput && opad != houtput
    modifies ipad, opad, houtput
    ensures ipad[..] == Zeros(BlockSize) && opad[..] == Zeros(BlockSize) && houtput[..] == Zeros(DigestSize)
  {
    ghost var z, zh := Zeros(BlockSize), Zeros(DigestSize);
    ZeroFill(ipad, BlockSize);
    assert ipad[..] == z;
    ZeroFill(opad, BlockSize);
    assert opad[..] == z && ipad[..] == z;
    ZeroFill(houtput, DigestSize);
    assert houtput[..] == zh;
  }

  /** hmac_sha256(key, klen, message, mlen, out). */
  method HmacSha256(key: seq<bv8>, msg: seq<bv8>, out: array<bv8>)
    requires out.Length >= DigestSize
    modifies out
    ensures |key| <= MaxKeySize ==> out[..DigestSize] == Hmac(key, msg)
    ensures |key| > MaxKeySize ==> out[..DigestSize] == old(out[..DigestSize])
    ensures out[DigestSize..] == old(out[DigestSize..])
  {
    if |key| > MaxKeySize {
      return;
    }
    ghost var ipad, opad, houtput, ctx := HmacCore(key, msg, out);
  }
}
