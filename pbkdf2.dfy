/**
 * pbkdf2_hmac_sha256 of pbkdf2.c: PBKDF2 with HMAC-SHA256 as the
 * pseudorandom function, as section 5.2 of RFC 8018 defines it.
 */
module Pbkdf2 {
  import opened Buffers
  import opened Sha256Spec
  import opened Mac

  /** ECRYPT_NO_ERROR and ECRYPT_INVALID_PARAMETERS. */
  const NoError: int := 0
  const InvalidParameters: int := 4

  /** A pseudorandom function of RFC 8018: password and message to one digest-sized block. */
  type Prf = f: (seq<bv8>, seq<bv8>) -> seq<bv8> | forall p, m :: |f(p, m)| == DigestSize
    witness (p: seq<bv8>, m: seq<bv8>) => Zeros(DigestSize)

  /** HMAC-SHA256 as the PRF, as pbkdf2_hmac_sha256 uses it. */
  const HmacPrf: Prf := (p, m) => Hmac(p, m)

  /** U_i of RFC 8018: U_1 = PRF(P, msg), U_i = PRF(P, U_(i-1)). */
  function Iterate(prf: Prf, pass: seq<bv8>, msg: seq<bv8>, i: nat): (u: seq<bv8>)
    requires i >= 1
    ensures |u| == DigestSize
  {
    if i == 1 then prf(pass, msg) else prf(pass, Iterate(prf, pass, msg, i - 1))
  }

  /** U_1 ^ U_2 ^ ... ^ U_n. */
  function Fold(prf: Prf, pass: seq<bv8>, msg: seq<bv8>, n: nat): (f: seq<bv8>)
    requires n >= 1
    ensures |f| == DigestSize
  {
    if n == 1 then Iterate(prf, pass, msg, 1)
    else XorSeq(Fold(prf, pass, msg, n - 1), Iterate(prf, pass, msg, n))
  }

  /** F(P, S, c, i) of RFC 8018: the block numbered count, from S || INT(count). */
  function BlockF(prf: Prf, pass: seq<bv8>, salt: seq<bv8>, rounds: nat, count: nat): (t: seq<bv8>)
    requires rounds >= 1 && count < Two32
    ensures |t| == DigestSize
  {
    Fold(prf, pass, salt + U32Bytes(count), rounds)
  }

  /** T_1 || ... || T_n. */
  function Blocks(prf: Prf, pass: seq<bv8>, salt: seq<bv8>, rounds: nat, n: nat): (t: seq<bv8>)
    requires rounds >= 1 && n < Two32
    ensures |t| == DigestSize * n
  {
    if n == 0 then [] else Blocks(prf, pass, salt, rounds, n - 1) + BlockF(prf, pass, salt, rounds, n)
  }

  /** The number of blocks an olen-byte key takes: olen / 32 rounded up. */
  function NumBlocks(olen: nat): nat
  {
    (olen + DigestSize - 1) / DigestSize
  }

  /** NumBlocks(olen) blocks hold olen bytes, and one fewer do not. */
  lemma NumBlocksBounds(olen: nat)
    ensures olen <= DigestSize * NumBlocks(olen)
    ensures olen > 0 ==> DigestSize * (NumBlocks(olen) - 1) < olen
  {
  }

  /** DK of RFC 8018: the first olen bytes of T_1 || T_2 || ... */
  function DerivedKey(prf: Prf, pass: seq<bv8>, salt: seq<bv8>, rounds: nat, olen: nat): (dk: seq<bv8>)
    requires rounds >= 1 && NumBlocks(olen) < Two32
    ensures |dk| == olen
  {
    NumBlocksBounds(olen);
    Blocks(prf, pass, salt, rounds, NumBlocks(olen))[..olen]
  }

  /** The first m blocks of a longer run of blocks are the run of m blocks. */
  lemma {:induction false} BlocksPrefix(prf: Prf, pass: seq<bv8>, salt: seq<bv8>, rounds: nat, m: nat, n: nat)
    requires rounds >= 1 && m <= n < Two32
    ensures Blocks(prf, pass, salt, rounds, n)[..DigestSize * m] == Blocks(prf, pass, salt, rounds, m)
  {
    if m < n {
      BlocksPrefix(prf, pass, salt, rounds, m, n - 1);
      AppendPrefix(Blocks(prf, pass, salt, rounds, n - 1), BlockF(prf, pass, salt, rounds, n), DigestSize * m);
    } else {
      WholePrefix(Blocks(prf, pass, salt, rounds, n));
    }
  }

  /** The bytes of a + b below |a| or less come from a. */
  lemma AppendPrefix(a: seq<bv8>, b: seq<bv8>, k: nat)
    requires k <= |a|
    ensures (a + b)[..k] == a[..k]
  {
  }

  /** A sequence is its own longest prefix. */
  lemma WholePrefix(a: seq<bv8>)
    ensures a[..|a|] == a
  {
  }

  /** A shorter key is a prefix of a longer one with the same password, salt and rounds. */
  lemma DerivedKeyPrefix(prf: Prf, pass: seq<bv8>, salt: seq<bv8>, rounds: nat, olen: nat, olen': nat)
    requires rounds >= 1 && olen <= olen' && NumBlocks(olen') < Two32
    ensures DerivedKey(prf, pass, salt, rounds, olen) == DerivedKey(prf, pass, salt, rounds, olen')[..olen]
  {
    var m, n := NumBlocks(olen), NumBlocks(olen');
    NumBlocksBounds(olen);
    NumBlocksBounds(olen');
    BlocksPrefix(prf, pass, salt, rounds, m, n);
    var bn := Blocks(prf, pass, salt, rounds, n);
    assert bn[..DigestSize * m][..olen] == bn[..olen];
  }

  /**
   * Block number count of the key (counting from 1) is F(P, S, c, count),
   * cut short to the bytes left when it is the last one.
   */
  lemma DerivedKeyBlock(prf: Prf, pass: seq<bv8>, salt: seq<bv8>, rounds: nat, olen: nat, count: nat)
    requires rounds >= 1 && NumBlocks(olen) < Two32 && 1 <= count <= NumBlocks(olen)
    ensures var lo := DigestSize * (count - 1);
            var hi := if olen < DigestSize * count then olen else DigestSize * count;
            lo < hi && DerivedKey(prf, pass, salt, rounds, olen)[lo..hi] == BlockF(prf, pass, salt, rounds, count)[..hi - lo]
  {
    var n := NumBlocks(olen);
    var lo := DigestSize * (count - 1);
    var hi := if olen < DigestSize * count then olen else DigestSize * count;
    NumBlocksBounds(olen);
    BlocksPrefix(prf, pass, salt, rounds, count, n);
    var bn := Blocks(prf, pass, salt, rounds, n);
    var a, b := Blocks(prf, pass, salt, rounds, count - 1), BlockF(prf, pass, salt, rounds, count);
    SliceWithin(bn, olen, lo, hi);
    SliceWithin(bn, DigestSize * count, lo, hi);
    SliceAfter(a, b, hi - lo);
  }

  /** A slice of a prefix that holds it is a slice of the whole. */
  lemma SliceWithin(s: seq<bv8>, k: nat, lo: nat, hi: nat)
    requires lo <= hi <= k <= |s|
    ensures s[..k][lo..hi] == s[lo..hi]
  {
  }

  /** The bytes of a + b from |a| on come from b. */
  lemma SliceAfter(a: seq<bv8>, b: seq<bv8>, t: nat)
    requires t <= |b|
    ensures (a + b)[|a|..|a| + t] == b[..t]
  {
  }

  /** The key grows by one block, or by the first bytes of one. */
  lemma DerivedKeyStep(prf: Prf, pass: seq<bv8>, salt: seq<bv8>, rounds: nat, count: nat, take: nat)
    requires rounds >= 1 && 1 <= count < Two32 && 1 <= take <= DigestSize
    ensures var pos := DigestSize * (count - 1);
            DerivedKey(prf, pass, salt, rounds, pos + take)
            == DerivedKey(prf, pass, salt, rounds, pos) + BlockF(prf, pass, salt, rounds, count)[..take]
  {
    var pos := DigestSize * (count - 1);
    StepBlocks(count, take);
    var b := Blocks(prf, pass, salt, rounds, count - 1);
    assert DerivedKey(prf, pass, salt, rounds, pos) == b[..pos] == b;
  }

  /** The block counts around one more block. */
  lemma StepBlocks(count: nat, take: nat)
    requires 1 <= count && 1 <= take <= DigestSize
    ensures NumBlocks(DigestSize * (count - 1) + take) == count
    ensures NumBlocks(DigestSize * (count - 1)) == count - 1
  {
  }

  /** s with its first n bytes XOR-ed with those of t, one store at a time. */
  ghost function XorSeqPrefix(s: seq<bv8>, t: seq<bv8>, n: nat): (r: seq<bv8>)
    requires n <= |s| == |t|
    ensures |r| == |s|
  {
    if n == 0 then s else XorSeqPrefix(s, t, n - 1)[n - 1 := Xor8(s[n - 1], t[n - 1])]
  }

  /** The bytes of XorSeqPrefix: XOR-ed below n, untouched from n on. */
  lemma {:induction false} XorSeqPrefixAt(s: seq<bv8>, t: seq<bv8>, n: nat, j: nat)
    requires n <= |s| == |t| && j < |s|
    ensures XorSeqPrefix(s, t, n)[j] == if j < n then Xor8(s[j], t[j]) else s[j]
  {
    if n > 0 {
      XorSeqPrefixAt(s, t, n - 1, j);
    }
  }

  /** Once every byte has been stored, XorSeqPrefix is XorSeq. */
  lemma XorSeqPrefixAll(s: seq<bv8>, t: seq<bv8>)
    requires |s| == |t|
    ensures XorSeqPrefix(s, t, |s|) == XorSeq(s, t)
  {
    forall j | 0 <= j < |s|
      ensures XorSeqPrefix(s, t, |s|)[j] == XorSeq(s, t)[j]
    {
      XorSeqPrefixAt(s, t, |s|, j);
    }
  }

  /** The loop obuf[j] ^= d1[j]. */
  method XorInto(dst: array<bv8>, src: seq<bv8>)
    requires dst.Length == |src|
    modifies dst
    ensures dst[..] == XorSeq(old(dst[..]), src)
  {
    ghost var d0 := dst[..];
    var j := 0;
    while j < |src|
      invariant 0 <= j <= |src|
      invariant dst[..] == XorSeqPrefix(d0, src, j)
    {
      XorSeqPrefixAt(d0, src, j, j);
      PutByte(dst, j, Xor8(dst[j], src[j]));
      j := j + 1;
    }
    XorSeqPrefixAll(d0, src);
  }

  /** Four stores of count, big-endian, after the salt. */
  method StoreCount(asalt: array<bv8>, slen: nat, count: nat)
    requires asalt.Length == slen + 4 && count < Two32
    modifies asalt
    ensures asalt[..] == old(asalt[..slen]) + U32Bytes(count)
  {
    ghost var d0 := asalt[..];
    PutByte(asalt, slen + 0, (count / 0x100_0000) as bv8);
    PutByte(asalt, slen + 1, ((count / 0x1_0000) % 0x100) as bv8);
    PutByte(asalt, slen + 2, ((count / 0x100) % 0x100) as bv8);
    PutByte(asalt, slen + 3, (count % 0x100) as bv8);
    CountBytes(d0, asalt[..], slen, U32Bytes(count));
  }

  /** Four stores at slen..slen+3 replace the last four bytes. */
  lemma CountBytes(d0: seq<bv8>, d: seq<bv8>, slen: nat, w: seq<bv8>)
    requires |d0| == slen + 4 && |w| == 4
    requires d == d0[slen + 0 := w[0]][slen + 1 := w[1]][slen + 2 := w[2]][slen + 3 := w[3]]
    ensures d == d0[..slen] + w
  {
    assert forall j :: 0 <= j < |d| ==> d[j] == (d0[..slen] + w)[j];
  }

  /** memcpy(d1, d2, 32), then obuf ^= d1. */
  method TakeRound(d1: array<bv8>, d2: array<bv8>, obuf: array<bv8>)
    requires d1.Length == DigestSize && d2.Length == DigestSize && obuf.Length == DigestSize
    requires d1 != d2 && d1 != obuf && d2 != obuf
    modifies d1, obuf
    ensures d1[..] == old(d2[..]) && obuf[..] == XorSeq(old(obuf[..]), old(d2[..]))
  {
    var u := d2[..];
    CopyAt(d1, 0, u);
    assert d1[..] == u;
    XorInto(obuf, u);
  }

  /** One more round: d2 = HMAC(P, d1), memcpy(d1, d2), obuf ^= d1. */
  method NextRound(pass: seq<bv8>, d1: array<bv8>, d2: array<bv8>, obuf: array<bv8>)
    requires |pass| <= MaxKeySize
    requires d1.Length == DigestSize && d2.Length == DigestSize && obuf.Length == DigestSize
    requires d1 != d2 && d1 != obuf && d2 != obuf
    modifies d1, d2, obuf
    ensures d1[..] == Hmac(pass, old(d1[..])) && obuf[..] == XorSeq(old(obuf[..]), d1[..])
  {
    ghost var o := obuf[..];
    var msg := d1[..];
    HmacSha256(pass, msg, d2);
    ghost var u := d2[..];
    assert u == d2[..DigestSize] == Hmac(pass, msg);
    assert obuf[..] == o;
    TakeRound(d1, d2, obuf);
  }

  /** U_(i+1) = PRF(P, U_i) for HMAC-SHA256. */
  lemma IterateNext(pass: seq<bv8>, msg: seq<bv8>, i: nat)
    requires i >= 1
    ensures Iterate(HmacPrf, pass, msg, i + 1) == Hmac(pass, Iterate(HmacPrf, pass, msg, i))
  {
  }

  /** The block loop body after the counter: U_1 into d1 and obuf, then rounds - 1 more rounds. */
  method ComputeBlock(pass: seq<bv8>, msg: seq<bv8>, rounds: nat, d1: array<bv8>, d2: array<bv8>, obuf: array<bv8>)
    requires |pass| <= MaxKeySize && rounds >= 1
    requires d1.Length == DigestSize && d2.Length == DigestSize && obuf.Length == DigestSize
    requires d1 != d2 && d1 != obuf && d2 != obuf
    modifies d1, d2, obuf
    ensures obuf[..] == Fold(HmacPrf, pass, msg, rounds)
  {
    HmacSha256(pass, msg, d1);
    var u := d1[..];
    assert u == d1[..DigestSize] == Iterate(HmacPrf, pass, msg, 1);
    CopyAt(obuf, 0, u);
    assert obuf[..] == u == Fold(HmacPrf, pass, msg, 1);
    var i := 1;
    while i < rounds
      invariant 1 <= i <= rounds
      invariant d1[..] == Iterate(HmacPrf, pass, msg, i) && obuf[..] == Fold(HmacPrf, pass, msg, i)
    {
      IterateNext(pass, msg, i);
      NextRound(pass, d1, d2, obuf);
      i := i + 1;
    }
    assert i == rounds;
  }

  /** The four memsets before the return. */
  method Scrub(asalt: array<bv8>, d1: array<bv8>, d2: array<bv8>, obuf: array<bv8>)
    requires d1.Length == DigestSize && d2.Length == DigestSize && obuf.Length == DigestSize
    requires asalt != d1 && asalt != d2 && asalt != obuf && d1 != d2 && d1 != obuf && d2 != obuf
    modifies asalt, d1, d2, obuf
    ensures asalt[..] == Zeros(asalt.Length)
    ensures d1[..] == Zeros(DigestSize) && d2[..] == Zeros(DigestSize) && obuf[..] == Zeros(DigestSize)
  {
    ghost var za, z := Zeros(asalt.Length), Zeros(DigestSize);
    ZeroFill(asalt, asalt.Length);
    assert asalt[..] == za;
    ZeroFill(d1, DigestSize);
    assert asalt[..] == za && d1[..] == z;
    ZeroFill(d2, DigestSize);
    assert asalt[..] == za && d1[..] == z && d2[..] == z;
    ZeroFill(obuf, DigestSize);
    assert asalt[..] == za && d1[..] == z && d2[..] == z;
  }

  /** s with its bytes pos..pos+take replaced by the first take bytes of blk. */
  function Spliced(s: seq<bv8>, pos: nat, blk: seq<bv8>, take: nat): (r: seq<bv8>)
    requires pos + take <= |s| && take <= |blk|
    ensures |r| == |s|
  {
    s[..pos] + blk[..take] + s[pos + take..]
  }

  /** A block written at pos into dk + o[pos..], where |dk| == pos, extends dk. */
  lemma Splice(dk: seq<bv8>, o: seq<bv8>, blk: seq<bv8>, pos: nat, take: nat)
    requires |dk| == pos && pos + take <= |o| && take <= |blk|
    ensures Spliced(dk + o[pos..], pos, blk, take) == (dk + blk[..take]) + o[pos + take..]
  {
    var cur := dk + o[pos..];
    assert cur[..pos] == dk;
    assert cur[pos + take..] == o[pos + take..];
  }

  /** a + b cut at |a|. */
  lemma SplitAt(a: seq<bv8>, b: seq<bv8>)
    ensures (a + b)[..|a|] == a && (a + b)[|a|..] == b
  {
  }

  /**
   * One pass of the block loop: the counter after the salt, block number
   * count into obuf, and its first take bytes into out at pos.
   */
  method EmitBlock(pass: seq<bv8>, salt: seq<bv8>, rounds: nat, count: nat,
                   asalt: array<bv8>, d1: array<bv8>, d2: array<bv8>, obuf: array<bv8>,
                   out: array<bv8>, pos: nat, take: nat)
    requires |pass| <= MaxKeySize && rounds >= 1 && count < Two32
    requires asalt.Length == |salt| + 4 && asalt[..|salt|] == salt
    requires d1.Length == DigestSize && d2.Length == DigestSize && obuf.Length == DigestSize
    requires take <= DigestSize && pos + take <= out.Length
    requires asalt != d1 && asalt != d2 && asalt != obuf && d1 != d2 && d1 != obuf && d2 != obuf
    requires out != asalt && out != d1 && out != d2 && out != obuf
    modifies asalt, d1, d2, obuf, out
    ensures asalt[..|salt|] == salt
    ensures out[..] == Spliced(old(out[..]), pos, BlockF(HmacPrf, pass, salt, rounds, count), take)
  {
    ghost var o := out[..];
    StoreCount(asalt, |salt|, count);
    var msg := asalt[..];
    assert msg == salt + U32Bytes(count);
    ComputeBlock(pass, msg, rounds, d1, d2, obuf);
    ghost var blk := obuf[..];
    assert blk == BlockF(HmacPrf, pass, salt, rounds, count);
    assert out[..] == o;
    CopyAt(out, pos, obuf[..take]);
    assert msg[..|salt|] == salt;
  }

  /**
   * pbkdf2_hmac_sha256(pass, plen, salt, slen, out, olen, rounds): olen
   * bytes of derived key into out, or ECRYPT_INVALID_PARAMETERS.
   */
  method Pbkdf2HmacSha256(pass: seq<bv8>, salt: seq<bv8>, out: array<bv8>, olen: nat, rounds: nat)
    returns (rc: int, ghost asalt: array?<bv8>, ghost d1: array?<bv8>, ghost d2: array?<bv8>, ghost obuf: array?<bv8>)
    requires |pass| <= MaxKeySize && rounds < 0x8000_0000 && NumBlocks(olen) < 0x7fff_ffff
    requires olen <= out.Length
    modifies out
    ensures rounds < 1 || olen == 0 || |salt| == 0 ==> rc == InvalidParameters && out[..] == old(out[..])
    ensures rounds >= 1 && olen > 0 && |salt| > 0 ==>
      && rc == NoError
      && out[..olen] == DerivedKey(HmacPrf, pass, salt, rounds, olen) && out[olen..] == old(out[olen..])
      && asalt != null && asalt[..] == Zeros(|salt| + 4)
      && d1 != null && d1[..] == Zeros(DigestSize) && d2 != null && d2[..] == Zeros(DigestSize)
      && obuf != null && obuf[..] == Zeros(DigestSize)
  {
    if rounds < 1 || olen == 0 || |salt| == 0 {
      return InvalidParameters, null, null, null, null;
    }
    ghost var o := out[..];
    var b_obuf := new bv8[DigestSize];
    var b_d1 := new bv8[DigestSize];
    var b_d2 := new bv8[DigestSize];
    var b_asalt := new bv8[|salt| + 4];
    ZeroFill(b_asalt, |salt| + 4);
    CopyAt(b_asalt, 0, salt);
    assert b_asalt[..|salt|] == salt;
    assert out[..] == o;
    DeriveBlocks(pass, salt, rounds, olen, b_asalt, b_d1, b_d2, b_obuf, out);
    ghost var dk := DerivedKey(HmacPrf, pass, salt, rounds, olen);
    SplitAt(dk, o[olen..]);
    ghost var fin := out[..];
    assert fin[..olen] == dk && fin[olen..] == o[olen..];
    Scrub(b_asalt, b_d1, b_d2, b_obuf);
    assert out[..] == fin;
    return NoError, b_asalt, b_d1, b_d2, b_obuf;
  }

  /** Writing block count at pos = 32 * (count - 1) over a derived key of pos bytes extends it by take bytes. */
  lemma AppendStep(prf: Prf, pass: seq<bv8>, salt: seq<bv8>, rounds: nat, count: nat, pos: nat, take: nat,
                   o: seq<bv8>, cur: seq<bv8>)
    requires rounds >= 1 && 1 <= count < Two32 && 1 <= take <= DigestSize
    requires pos == DigestSize * (count - 1) && pos + take <= |o|
    requires cur == DerivedKey(prf, pass, salt, rounds, pos) + o[pos..]
    ensures Spliced(cur, pos, BlockF(prf, pass, salt, rounds, count), take)
            == DerivedKey(prf, pass, salt, rounds, pos + take) + o[pos + take..]
  {
    StepBlocks(count, take);
    Splice(DerivedKey(prf, pass, salt, rounds, pos), o, BlockF(prf, pass, salt, rounds, count), pos, take);
    DerivedKeyStep(prf, pass, salt, rounds, count, take);
  }

  /**
   * One pass of the block loop: block count, or its first left bytes when
   * fewer than a digest remain, extends the derived key written so far.
   */
  method AppendBlock(pass: seq<bv8>, salt: seq<bv8>, rounds: nat, count: nat,
                     asalt: array<bv8>, d1: array<bv8>, d2: array<bv8>, obuf: array<bv8>,
                     out: array<bv8>, pos: nat, left: nat, ghost o: seq<bv8>)
    returns (pos': nat, left': nat)
    requires |pass| <= MaxKeySize && rounds >= 1 && 1 <= count < Two32
    requires asalt.Length == |salt| + 4 && asalt[..|salt|] == salt
    requires d1.Length == DigestSize && d2.Length == DigestSize && obuf.Length == DigestSize
    requires left > 0 && pos == DigestSize * (count - 1) && pos + left <= out.Length == |o|
    requires NumBlocks(pos + left) < Two32
    requires asalt != d1 && asalt != d2 && asalt != obuf && d1 != d2 && d1 != obuf && d2 != obuf
    requires out != asalt && out != d1 && out != d2 && out != obuf
    requires out[..] == DerivedKey(HmacPrf, pass, salt, rounds, pos) + o[pos..]
    modifies asalt, d1, d2, obuf, out
    ensures pos' + left' == pos + left && left' < left
    ensures left' > 0 ==> pos' == DigestSize * count
    ensures asalt[..|salt|] == salt
    ensures out[..] == DerivedKey(HmacPrf, pass, salt, rounds, pos') + o[pos'..]
  {
    var take := if left < DigestSize then left else DigestSize;
    ghost var cur := out[..];
    ghost var blk := BlockF(HmacPrf, pass, salt, rounds, count);
    ghost var dk := DerivedKey(HmacPrf, pass, salt, rounds, pos + take);
    AppendStep(HmacPrf, pass, salt, rounds, count, pos, take, o, cur);
    assert Spliced(cur, pos, blk, take) == dk + o[pos + take..];
    EmitBlock(pass, salt, rounds, count, asalt, d1, d2, obuf, out, pos, take);
    assert out[..] == Spliced(cur, pos, blk, take);
    pos', left' := pos + take, left - take;
  }

  /** The loop for (count = 1; olen > 0; ++count) of pbkdf2_hmac_sha256. */
  method DeriveBlocks(pass: seq<bv8>, salt: seq<bv8>, rounds: nat, olen: nat,
                      asalt: array<bv8>, d1: array<bv8>, d2: array<bv8>, obuf: array<bv8>, out: array<bv8>)
    requires |pass| <= MaxKeySize && rounds >= 1 && NumBlocks(olen) < 0x7fff_ffff
    requires asalt.Length == |salt| + 4 && asalt[..|salt|] == salt
    requires d1.Length == DigestSize && d2.Length == DigestSize && obuf.Length == DigestSize
    requires olen <= out.Length
    requires asalt != d1 && asalt != d2 && asalt != obuf && d1 != d2 && d1 != obuf && d2 != obuf
    requires out != asalt && out != d1 && out != d2 && out != obuf
    modifies asalt, d1, d2, obuf, out
    ensures out[..] == DerivedKey(HmacPrf, pass, salt, rounds, olen) + old(out[olen..])
  {
    ghost var o := out[..];
    assert DerivedKey(HmacPrf, pass, salt, rounds, 0) == [];
    assert out[..] == DerivedKey(HmacPrf, pass, salt, rounds, 0) + o[0..];
    var count: nat := 1;
    var pos: nat := 0;
    var left: nat := olen;
    while left > 0
      invariant pos + left == olen && pos <= |o| && 1 <= count <= NumBlocks(olen) + 1
      invariant left > 0 ==> pos == DigestSize * (count - 1) && count <= NumBlocks(olen)
      invariant asalt[..|salt|] == salt
      invariant out[..] == DerivedKey(HmacPrf, pass, salt, rounds, pos) + o[pos..]
      decreases left
    {
      pos, left := AppendBlock(pass, salt, rounds, count, asalt, d1, d2, obuf, out, pos, left, o);
      if left > 0 {
        NextCount(olen, pos, count);
      }
      count := count + 1;
    }
  }

  /** The counter stays within the block count while bytes are left. */
  lemma NextCount(olen: nat, pos: nat, count: nat)
    requires pos < olen && pos == DigestSize * count
    ensures count + 1 <= NumBlocks(olen)
  {
  }
}
