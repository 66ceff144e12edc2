/**
 * The equivalent inverse cipher undoes the cipher (FIPS-197 section 5.3.5).
 *
 * The field multiplications are GF(2)-linear, and the InvMixColumns matrix
 * times the MixColumns matrix is the identity (FIPS-197 section 5.3.3).
 * From these, each inverse round of the decryption schedule undoes one
 * round of the cipher.
 */
module AesInverse {
  import opened Bytes
  import opened AesTables
  import opened AesSpec
  import opened Buffers

  // ---------------------------------------------------------------------
  // GF(2^8): linearity of the multipliers
  // ---------------------------------------------------------------------

  /** xtime distributes over XOR; the case split is on the two top bits, which decide the reductions. */
  lemma XTimeXor(a: bv8, b: bv8)
    ensures XTime(a ^ b) == XTime(a) ^ XTime(b)
  {
    if a & 0x80 == 0 {
      if b & 0x80 == 0 {
        assert (a ^ b) & 0x80 == 0;
      } else {
        assert (a ^ b) & 0x80 != 0;
      }
    } else {
      if b & 0x80 == 0 {
        assert (a ^ b) & 0x80 != 0;
      } else {
        assert (a ^ b) & 0x80 == 0;
      }
    }
  }

  /** Equal operands give equal XORs. */
  lemma XorCongruence(p: bv8, q: bv8, p': bv8, q': bv8)
    ensures p == p' && q == q' ==> p ^ q == p' ^ q'
  {
  }

  // Each law connects the terms through the two generic lemmas above, so
  // that no step needs the bits of a multiplier.

  lemma Mul3XorExpanded(a: bv8, b: bv8)
    ensures XTime(a ^ b) ^ (a ^ b) == (XTime(a) ^ a) ^ (XTime(b) ^ b)
  {
    XTimeXor(a, b);
  }

  lemma Mul3Xor(a: bv8, b: bv8)
    ensures Mul3(a ^ b) == Mul3(a) ^ Mul3(b)
  {
    Mul3XorExpanded(a, b);
  }

  lemma Mul4Xor(a: bv8, b: bv8)
    ensures Mul4(a ^ b) == Mul4(a) ^ Mul4(b)
  {
    XTimeXor(a, b);
    XTimeXor(XTime(a), XTime(b));
    XorCongruence(Mul4(a), Mul4(b), XTime(XTime(a)), XTime(XTime(b)));
  }

  lemma Mul6Xor(a: bv8, b: bv8)
    ensures Mul6(a ^ b) == Mul6(a) ^ Mul6(b)
  {
    Mul3Xor(a, b);
    XTimeXor(Mul3(a), Mul3(b));
    XorCongruence(Mul6(a), Mul6(b), XTime(Mul3(a)), XTime(Mul3(b)));
  }

  lemma Mul8Xor(a: bv8, b: bv8)
    ensures Mul8(a ^ b) == Mul8(a) ^ Mul8(b)
  {
    Mul4Xor(a, b);
    XTimeXor(Mul4(a), Mul4(b));
    XorCongruence(Mul8(a), Mul8(b), XTime(Mul4(a)), XTime(Mul4(b)));
  }

  lemma Mul9XorExpanded(a: bv8, b: bv8)
    ensures Mul8(a ^ b) ^ (a ^ b) == (Mul8(a) ^ a) ^ (Mul8(b) ^ b)
  {
    Mul8Xor(a, b);
  }

  lemma Mul9Xor(a: bv8, b: bv8)
    ensures Mul9(a ^ b) == Mul9(a) ^ Mul9(b)
  {
    Mul9XorExpanded(a, b);
  }

  lemma Mul11XorExpanded(a: bv8, b: bv8)
    ensures Mul8(a ^ b) ^ Mul3(a ^ b) == (Mul8(a) ^ Mul3(a)) ^ (Mul8(b) ^ Mul3(b))
  {
    Mul8Xor(a, b);
    Mul3Xor(a, b);
  }

  lemma Mul11Xor(a: bv8, b: bv8)
    ensures Mul11(a ^ b) == Mul11(a) ^ Mul11(b)
  {
    Mul11XorExpanded(a, b);
  }

  lemma Mul13XorExpanded(a: bv8, b: bv8)
    ensures Mul9(a ^ b) ^ Mul4(a ^ b) == (Mul9(a) ^ Mul4(a)) ^ (Mul9(b) ^ Mul4(b))
  {
    Mul9Xor(a, b);
    Mul4Xor(a, b);
  }

  lemma Mul13Xor(a: bv8, b: bv8)
    ensures Mul13(a ^ b) == Mul13(a) ^ Mul13(b)
  {
    Mul13XorExpanded(a, b);
  }

  lemma Mul14XorExpanded(a: bv8, b: bv8)
    ensures Mul8(a ^ b) ^ Mul6(a ^ b) == (Mul8(a) ^ Mul6(a)) ^ (Mul8(b) ^ Mul6(b))
  {
    Mul8Xor(a, b);
    Mul6Xor(a, b);
  }

  lemma Mul14Xor(a: bv8, b: bv8)
    ensures Mul14(a ^ b) == Mul14(a) ^ Mul14(b)
  {
    Mul14XorExpanded(a, b);
  }

  // ---------------------------------------------------------------------
  // InvMixColumns undoes MixColumns (FIPS-197 section 5.3.3)
  // ---------------------------------------------------------------------

  lemma Mul9Split(s: bv8, a: bv8, b: bv8)
    ensures s == a ^ b ==> Mul9(s) == Mul9(a) ^ Mul9(b)
  {
    Mul9Xor(a, b);
  }

  lemma Mul11Split(s: bv8, a: bv8, b: bv8)
    ensures s == a ^ b ==> Mul11(s) == Mul11(a) ^ Mul11(b)
  {
    Mul11Xor(a, b);
  }

  lemma Mul13Split(s: bv8, a: bv8, b: bv8)
    ensures s == a ^ b ==> Mul13(s) == Mul13(a) ^ Mul13(b)
  {
    Mul13Xor(a, b);
  }

  lemma Mul14Split(s: bv8, a: bv8, b: bv8)
    ensures s == a ^ b ==> Mul14(s) == Mul14(a) ^ Mul14(b)
  {
    Mul14Xor(a, b);
  }

  /** Three splits of a four-term XOR, chained. */
  lemma Linear4(ms: bv8, mabc: bv8, mab: bv8, ma: bv8, mb: bv8, mc: bv8, md: bv8)
    ensures ms == mabc ^ md && mabc == mab ^ mc && mab == ma ^ mb ==> ms == ma ^ mb ^ mc ^ md
  {
  }

  lemma Mul9Split4(s: bv8, a: bv8, b: bv8, c: bv8, d: bv8)
    ensures s == a ^ b ^ c ^ d ==> Mul9(s) == Mul9(a) ^ Mul9(b) ^ Mul9(c) ^ Mul9(d)
  {
    Mul9Split(s, a ^ b ^ c, d);
    Mul9Split(a ^ b ^ c, a ^ b, c);
    Mul9Split(a ^ b, a, b);
    Linear4(Mul9(s), Mul9(a ^ b ^ c), Mul9(a ^ b), Mul9(a), Mul9(b), Mul9(c), Mul9(d));
  }

  lemma Mul9Sum4(s: bv8, a: bv8, b: bv8, c: bv8, d: bv8)
    ensures s == a ^ b ^ c ^ d ==> Mul9(s) == Sum4(Mul9(a), Mul9(b), Mul9(c), Mul9(d))
  {
    Mul9Split4(s, a, b, c, d);
    Sum4Def(Mul9(a), Mul9(b), Mul9(c), Mul9(d));
  }

  lemma Mul11Split4(s: bv8, a: bv8, b: bv8, c: bv8, d: bv8)
    ensures s == a ^ b ^ c ^ d ==> Mul11(s) == Mul11(a) ^ Mul11(b) ^ Mul11(c) ^ Mul11(d)
  {
    Mul11Split(s, a ^ b ^ c, d);
    Mul11Split(a ^ b ^ c, a ^ b, c);
    Mul11Split(a ^ b, a, b);
    Linear4(Mul11(s), Mul11(a ^ b ^ c), Mul11(a ^ b), Mul11(a), Mul11(b), Mul11(c), Mul11(d));
  }

  lemma Mul11Sum4(s: bv8, a: bv8, b: bv8, c: bv8, d: bv8)
    ensures s == a ^ b ^ c ^ d ==> Mul11(s) == Sum4(Mul11(a), Mul11(b), Mul11(c), Mul11(d))
  {
    Mul11Split4(s, a, b, c, d);
    Sum4Def(Mul11(a), Mul11(b), Mul11(c), Mul11(d));
  }

  lemma Mul13Split4(s: bv8, a: bv8, b: bv8, c: bv8, d: bv8)
    ensures s == a ^ b ^ c ^ d ==> Mul13(s) == Mul13(a) ^ Mul13(b) ^ Mul13(c) ^ Mul13(d)
  {
    Mul13Split(s, a ^ b ^ c, d);
    Mul13Split(a ^ b ^ c, a ^ b, c);
    Mul13Split(a ^ b, a, b);
    Linear4(Mul13(s), Mul13(a ^ b ^ c), Mul13(a ^ b), Mul13(a), Mul13(b), Mul13(c), Mul13(d));
  }

  lemma Mul13Sum4(s: bv8, a: bv8, b: bv8, c: bv8, d: bv8)
    ensures s == a ^ b ^ c ^ d ==> Mul13(s) == Sum4(Mul13(a), Mul13(b), Mul13(c), Mul13(d))
  {
    Mul13Split4(s, a, b, c, d);
    Sum4Def(Mul13(a), Mul13(b), Mul13(c), Mul13(d));
  }

  lemma Mul14Split4(s: bv8, a: bv8, b: bv8, c: bv8, d: bv8)
    ensures s == a ^ b ^ c ^ d ==> Mul14(s) == Mul14(a) ^ Mul14(b) ^ Mul14(c) ^ Mul14(d)
  {
    Mul14Split(s, a ^ b ^ c, d);
    Mul14Split(a ^ b ^ c, a ^ b, c);
    Mul14Split(a ^ b, a, b);
    Linear4(Mul14(s), Mul14(a ^ b ^ c), Mul14(a ^ b), Mul14(a), Mul14(b), Mul14(c), Mul14(d));
  }

  lemma Mul14Sum4(s: bv8, a: bv8, b: bv8, c: bv8, d: bv8)
    ensures s == a ^ b ^ c ^ d ==> Mul14(s) == Sum4(Mul14(a), Mul14(b), Mul14(c), Mul14(d))
  {
    Mul14Split4(s, a, b, c, d);
    Sum4Def(Mul14(a), Mul14(b), Mul14(c), Mul14(d));
  }

  /** Row sums m and column sums c of the same sixteen bytes have the same total. */
  lemma SumCombine(m0: bv8, m1: bv8, m2: bv8, m3: bv8, c0: bv8, c1: bv8, c2: bv8, c3: bv8, x00: bv8, x01: bv8, x02: bv8, x03: bv8, x10: bv8, x11: bv8, x12: bv8, x13: bv8, x20: bv8, x21: bv8, x22: bv8, x23: bv8, x30: bv8, x31: bv8, x32: bv8, x33: bv8)
    ensures m0 == Sum4(x00, x01, x02, x03) && m1 == Sum4(x10, x11, x12, x13) && m2 == Sum4(x20, x21, x22, x23) && m3 == Sum4(x30, x31, x32, x33) && Sum4(x00, x10, x20, x30) == c0 && Sum4(x01, x11, x21, x31) == c1 && Sum4(x02, x12, x22, x32) == c2 && Sum4(x03, x13, x23, x33) == c3
        ==> Sum4(m0, m1, m2, m3) == Sum4(c0, c1, c2, c3)
  {
    SumTranspose(x00, x01, x02, x03, x10, x11, x12, x13, x20, x21, x22, x23, x30, x31, x32, x33);
  }

  /**
   * Four bytes summed as two pairs.  The proofs below combine sums through
   * this function and Xor8, so that equal arguments give equal sums.
   */
  function Sum4(a: bv8, b: bv8, c: bv8, d: bv8): bv8
  {
    Xor8(Xor8(a, b), Xor8(c, d))
  }

  lemma Xor8Def(a: bv8, b: bv8)
    ensures Xor8(a, b) == a ^ b
  {
  }

  lemma Sum4Def(a: bv8, b: bv8, c: bv8, d: bv8)
    ensures Sum4(a, b, c, d) == a ^ b ^ c ^ d
  {
  }

  /** Exchanging the middle terms of a sum of two pairs, on named pairs. */
  lemma PairSwap(p: bv8, q: bv8, r: bv8, s: bv8, a: bv8, b: bv8, c: bv8, d: bv8)
    ensures p == Xor8(a, b) && q == Xor8(c, d) && r == Xor8(a, c) && s == Xor8(b, d) ==> Xor8(p, q) == Xor8(r, s)
  {
    Xor8Def(a, b);
    Xor8Def(c, d);
    Xor8Def(a, c);
    Xor8Def(b, d);
    Xor8Def(p, q);
    Xor8Def(r, s);
  }

  /** Exchanging the middle terms of a sum of two pairs. */
  lemma SumSwap(a: bv8, b: bv8, c: bv8, d: bv8)
    ensures Xor8(Xor8(a, b), Xor8(c, d)) == Xor8(Xor8(a, c), Xor8(b, d))
  {
    PairSwap(Xor8(a, b), Xor8(c, d), Xor8(a, c), Xor8(b, d), a, b, c, d);
  }

  /** A sum of four bytes, expanded. */
  lemma SumExpand(m0: bv8, m1: bv8, m2: bv8, m3: bv8, c0: bv8, c1: bv8, c2: bv8, c3: bv8)
    ensures Sum4(m0, m1, m2, m3) == Sum4(c0, c1, c2, c3) ==> m0 ^ m1 ^ m2 ^ m3 == c0 ^ c1 ^ c2 ^ c3
  {
    Sum4Def(m0, m1, m2, m3);
    Sum4Def(c0, c1, c2, c3);
  }

  /** Sixteen bytes summed row by row equal the same bytes summed column by column. */
  lemma SumTranspose(x00: bv8, x01: bv8, x02: bv8, x03: bv8, x10: bv8, x11: bv8, x12: bv8, x13: bv8, x20: bv8, x21: bv8, x22: bv8, x23: bv8, x30: bv8, x31: bv8, x32: bv8, x33: bv8)
    ensures Sum4(Sum4(x00, x01, x02, x03), Sum4(x10, x11, x12, x13), Sum4(x20, x21, x22, x23), Sum4(x30, x31, x32, x33))
         == Sum4(Sum4(x00, x10, x20, x30), Sum4(x01, x11, x21, x31), Sum4(x02, x12, x22, x32), Sum4(x03, x13, x23, x33))
  {
    SumSwap(Xor8(x00, x01), Xor8(x02, x03), Xor8(x10, x11), Xor8(x12, x13));
    SumSwap(Xor8(x20, x21), Xor8(x22, x23), Xor8(x30, x31), Xor8(x32, x33));
    SumSwap(Xor8(Xor8(x00, x01), Xor8(x10, x11)), Xor8(Xor8(x02, x03), Xor8(x12, x13)), Xor8(Xor8(x20, x21), Xor8(x30, x31)), Xor8(Xor8(x22, x23), Xor8(x32, x33)));
    SumSwap(x00, x01, x10, x11);
    SumSwap(x20, x21, x30, x31);
    SumSwap(x02, x03, x12, x13);
    SumSwap(x22, x23, x32, x33);
    SumSwap(Xor8(x00, x10), Xor8(x01, x11), Xor8(x20, x30), Xor8(x21, x31));
    SumSwap(Xor8(x02, x12), Xor8(x03, x13), Xor8(x22, x32), Xor8(x23, x33));
  }

  /*
   * Row 0 of the InvMixColumns matrix, [0e 0b 0d 09], times each column of
   * the MixColumns matrix, [02 01 01 03] and its rotations: the first
   * product is {01} and the other three are 0.  Both matrices are
   * circulant, so these four products give all sixteen entries of the
   * matrix product.  Here t stands for XTime(a) and h for Mul3(a).
   */

  lemma InvTimesMix0(a: bv8, t: bv8, h: bv8)
    ensures t == XTime(a) && h == Mul3(a) ==> Sum4(Mul14(t), Mul11(a), Mul13(a), Mul9(h)) == a
  {
  }

  lemma InvTimesMix1(a: bv8, t: bv8, h: bv8)
    ensures t == XTime(a) && h == Mul3(a) ==> Sum4(Mul14(h), Mul11(t), Mul13(a), Mul9(a)) == 0
  {
  }

  lemma InvTimesMix2(a: bv8, t: bv8, h: bv8)
    ensures t == XTime(a) && h == Mul3(a) ==> Sum4(Mul14(a), Mul11(h), Mul13(t), Mul9(a)) == 0
  {
  }

  lemma InvTimesMix3(a: bv8, t: bv8, h: bv8)
    ensures t == XTime(a) && h == Mul3(a) ==> Sum4(Mul14(a), Mul11(a), Mul13(h), Mul9(t)) == 0
  {
  }

  lemma MixedBytes0(a0: bv8, a1: bv8, a2: bv8, a3: bv8, t0: bv8, t1: bv8, t2: bv8, t3: bv8, h0: bv8, h1: bv8, h2: bv8, h3: bv8, e0: bv8, e1: bv8, e2: bv8, e3: bv8)
    ensures t0 == XTime(a0) && h0 == Mul3(a0) && t1 == XTime(a1) && h1 == Mul3(a1) && t2 == XTime(a2) && h2 == Mul3(a2) && t3 == XTime(a3) && h3 == Mul3(a3)
        && e0 == t0 ^ h1 ^ a2 ^ a3 && e1 == a0 ^ t1 ^ h2 ^ a3 && e2 == a0 ^ a1 ^ t2 ^ h3 && e3 == h0 ^ a1 ^ a2 ^ t3
        ==> Mul14(e0) ^ Mul11(e1) ^ Mul13(e2) ^ Mul9(e3) == a0
  {
    Mul14Sum4(e0, t0, h1, a2, a3);
    Mul11Sum4(e1, a0, t1, h2, a3);
    Mul13Sum4(e2, a0, a1, t2, h3);
    Mul9Sum4(e3, h0, a1, a2, t3);
    InvTimesMix0(a0, t0, h0);
    InvTimesMix1(a1, t1, h1);
    InvTimesMix2(a2, t2, h2);
    InvTimesMix3(a3, t3, h3);
    SumCombine(Mul14(e0), Mul11(e1), Mul13(e2), Mul9(e3), a0, 0, 0, 0, Mul14(t0), Mul14(h1), Mul14(a2), Mul14(a3), Mul11(a0), Mul11(t1), Mul11(h2), Mul11(a3), Mul13(a0), Mul13(a1), Mul13(t2), Mul13(h3), Mul9(h0), Mul9(a1), Mul9(a2), Mul9(t3));
    SumExpand(Mul14(e0), Mul11(e1), Mul13(e2), Mul9(e3), a0, 0, 0, 0);
  }

  lemma MixedRow0(a0: bv8, a1: bv8, a2: bv8, a3: bv8, t0: bv8, t1: bv8, t2: bv8, t3: bv8, h0: bv8, h1: bv8, h2: bv8, h3: bv8)
    ensures t0 == XTime(a0) && h0 == Mul3(a0) && t1 == XTime(a1) && h1 == Mul3(a1) && t2 == XTime(a2) && h2 == Mul3(a2) && t3 == XTime(a3) && h3 == Mul3(a3)
        ==> Mul14(t0 ^ h1 ^ a2 ^ a3) ^ Mul11(a0 ^ t1 ^ h2 ^ a3) ^ Mul13(a0 ^ a1 ^ t2 ^ h3) ^ Mul9(h0 ^ a1 ^ a2 ^ t3) == a0
  {
    MixedBytes0(a0, a1, a2, a3, t0, t1, t2, t3, h0, h1, h2, h3, t0 ^ h1 ^ a2 ^ a3, a0 ^ t1 ^ h2 ^ a3, a0 ^ a1 ^ t2 ^ h3, h0 ^ a1 ^ a2 ^ t3);
  }

  /** Byte 0 of InvMixColumns applied to a mixed column is byte 0 of the column. */
  lemma InvMixRow0(a0: bv8, a1: bv8, a2: bv8, a3: bv8)
    ensures Mul14(XTime(a0) ^ Mul3(a1) ^ a2 ^ a3) ^ Mul11(a0 ^ XTime(a1) ^ Mul3(a2) ^ a3) ^ Mul13(a0 ^ a1 ^ XTime(a2) ^ Mul3(a3)) ^ Mul9(Mul3(a0) ^ a1 ^ a2 ^ XTime(a3)) == a0
  {
    MixedRow0(a0, a1, a2, a3, XTime(a0), XTime(a1), XTime(a2), XTime(a3), Mul3(a0), Mul3(a1), Mul3(a2), Mul3(a3));
  }

  lemma MixedBytes1(a0: bv8, a1: bv8, a2: bv8, a3: bv8, t0: bv8, t1: bv8, t2: bv8, t3: bv8, h0: bv8, h1: bv8, h2: bv8, h3: bv8, e0: bv8, e1: bv8, e2: bv8, e3: bv8)
    ensures t0 == XTime(a0) && h0 == Mul3(a0) && t1 == XTime(a1) && h1 == Mul3(a1) && t2 == XTime(a2) && h2 == Mul3(a2) && t3 == XTime(a3) && h3 == Mul3(a3)
        && e0 == t0 ^ h1 ^ a2 ^ a3 && e1 == a0 ^ t1 ^ h2 ^ a3 && e2 == a0 ^ a1 ^ t2 ^ h3 && e3 == h0 ^ a1 ^ a2 ^ t3
        ==> Mul9(e0) ^ Mul14(e1) ^ Mul11(e2) ^ Mul13(e3) == a1
  {
    Mul14Sum4(e1, a0, t1, h2, a3);
    Mul11Sum4(e2, a0, a1, t2, h3);
    Mul13Sum4(e3, h0, a1, a2, t3);
    Mul9Sum4(e0, t0, h1, a2, a3);
    InvTimesMix3(a0, t0, h0);
    InvTimesMix0(a1, t1, h1);
    InvTimesMix1(a2, t2, h2);
    InvTimesMix2(a3, t3, h3);
    SumCombine(Mul14(e1), Mul11(e2), Mul13(e3), Mul9(e0), 0, a1, 0, 0, Mul14(a0), Mul14(t1), Mul14(h2), Mul14(a3), Mul11(a0), Mul11(a1), Mul11(t2), Mul11(h3), Mul13(h0), Mul13(a1), Mul13(a2), Mul13(t3), Mul9(t0), Mul9(h1), Mul9(a2), Mul9(a3));
    SumExpand(Mul14(e1), Mul11(e2), Mul13(e3), Mul9(e0), 0, a1, 0, 0);
  }

  lemma MixedRow1(a0: bv8, a1: bv8, a2: bv8, a3: bv8, t0: bv8, t1: bv8, t2: bv8, t3: bv8, h0: bv8, h1: bv8, h2: bv8, h3: bv8)
    ensures t0 == XTime(a0) && h0 == Mul3(a0) && t1 == XTime(a1) && h1 == Mul3(a1) && t2 == XTime(a2) && h2 == Mul3(a2) && t3 == XTime(a3) && h3 == Mul3(a3)
        ==> Mul9(t0 ^ h1 ^ a2 ^ a3) ^ Mul14(a0 ^ t1 ^ h2 ^ a3) ^ Mul11(a0 ^ a1 ^ t2 ^ h3) ^ Mul13(h0 ^ a1 ^ a2 ^ t3) == a1
  {
    MixedBytes1(a0, a1, a2, a3, t0, t1, t2, t3, h0, h1, h2, h3, t0 ^ h1 ^ a2 ^ a3, a0 ^ t1 ^ h2 ^ a3, a0 ^ a1 ^ t2 ^ h3, h0 ^ a1 ^ a2 ^ t3);
  }

  /** Byte 1 of InvMixColumns applied to a mixed column is byte 1 of the column. */
  lemma InvMixRow1(a0: bv8, a1: bv8, a2: bv8, a3: bv8)
    ensures Mul9(XTime(a0) ^ Mul3(a1) ^ a2 ^ a3) ^ Mul14(a0 ^ XTime(a1) ^ Mul3(a2) ^ a3) ^ Mul11(a0 ^ a1 ^ XTime(a2) ^ Mul3(a3)) ^ Mul13(Mul3(a0) ^ a1 ^ a2 ^ XTime(a3)) == a1
  {
    MixedRow1(a0, a1, a2, a3, XTime(a0), XTime(a1), XTime(a2), XTime(a3), Mul3(a0), Mul3(a1), Mul3(a2), Mul3(a3));
  }

  lemma MixedBytes2(a0: bv8, a1: bv8, a2: bv8, a3: bv8, t0: bv8, t1: bv8, t2: bv8, t3: bv8, h0: bv8, h1: bv8, h2: bv8, h3: bv8, e0: bv8, e1: bv8, e2: bv8, e3: bv8)
    ensures t0 == XTime(a0) && h0 == Mul3(a0) && t1 == XTime(a1) && h1 == Mul3(a1) && t2 == XTime(a2) && h2 == Mul3(a2) && t3 == XTime(a3) && h3 == Mul3(a3)
        && e0 == t0 ^ h1 ^ a2 ^ a3 && e1 == a0 ^ t1 ^ h2 ^ a3 && e2 == a0 ^ a1 ^ t2 ^ h3 && e3 == h0 ^ a1 ^ a2 ^ t3
        ==> Mul13(e0) ^ Mul9(e1) ^ Mul14(e2) ^ Mul11(e3) == a2
  {
    Mul14Sum4(e2, a0, a1, t2, h3);
    Mul11Sum4(e3, h0, a1, a2, t3);
    Mul13Sum4(e0, t0, h1, a2, a3);
    Mul9Sum4(e1, a0, t1, h2, a3);
    InvTimesMix2(a0, t0, h0);
    InvTimesMix3(a1, t1, h1);
    InvTimesMix0(a2, t2, h2);
    InvTimesMix1(a3, t3, h3);
    SumCombine(Mul14(e2), Mul11(e3), Mul13(e0), Mul9(e1), 0, 0, a2, 0, Mul14(a0), Mul14(a1), Mul14(t2), Mul14(h3), Mul11(h0), Mul11(a1), Mul11(a2), Mul11(t3), Mul13(t0), Mul13(h1), Mul13(a2), Mul13(a3), Mul9(a0), Mul9(t1), Mul9(h2), Mul9(a3));
    SumExpand(Mul14(e2), Mul11(e3), Mul13(e0), Mul9(e1), 0, 0, a2, 0);
  }

  lemma MixedRow2(a0: bv8, a1: bv8, a2: bv8, a3: bv8, t0: bv8, t1: bv8, t2: bv8, t3: bv8, h0: bv8, h1: bv8, h2: bv8, h3: bv8)
    ensures t0 == XTime(a0) && h0 == Mul3(a0) && t1 == XTime(a1) && h1 == Mul3(a1) && t2 == XTime(a2) && h2 == Mul3(a2) && t3 == XTime(a3) && h3 == Mul3(a3)
        ==> Mul13(t0 ^ h1 ^ a2 ^ a3) ^ Mul9(a0 ^ t1 ^ h2 ^ a3) ^ Mul14(a0 ^ a1 ^ t2 ^ h3) ^ Mul11(h0 ^ a1 ^ a2 ^ t3) == a2
  {
    MixedBytes2(a0, a1, a2, a3, t0, t1, t2, t3, h0, h1, h2, h3, t0 ^ h1 ^ a2 ^ a3, a0 ^ t1 ^ h2 ^ a3, a0 ^ a1 ^ t2 ^ h3, h0 ^ a1 ^ a2 ^ t3);
  }

  /** Byte 2 of InvMixColumns applied to a mixed column is byte 2 of the column. */
  lemma InvMixRow2(a0: bv8, a1: bv8, a2: bv8, a3: bv8)
    ensures Mul13(XTime(a0) ^ Mul3(a1) ^ a2 ^ a3) ^ Mul9(a0 ^ XTime(a1) ^ Mul3(a2) ^ a3) ^ Mul14(a0 ^ a1 ^ XTime(a2) ^ Mul3(a3)) ^ Mul11(Mul3(a0) ^ a1 ^ a2 ^ XTime(a3)) == a2
  {
    MixedRow2(a0, a1, a2, a3, XTime(a0), XTime(a1), XTime(a2), XTime(a3), Mul3(a0), Mul3(a1), Mul3(a2), Mul3(a3));
  }

  lemma MixedBytes3(a0: bv8, a1: bv8, a2: bv8, a3: bv8, t0: bv8, t1: bv8, t2: bv8, t3: bv8, h0: bv8, h1: bv8, h2: bv8, h3: bv8, e0: bv8, e1: bv8, e2: bv8, e3: bv8)
    ensures t0 == XTime(a0) && h0 == Mul3(a0) && t1 == XTime(a1) && h1 == Mul3(a1) && t2 == XTime(a2) && h2 == Mul3(a2) && t3 == XTime(a3) && h3 == Mul3(a3)
        && e0 == t0 ^ h1 ^ a2 ^ a3 && e1 == a0 ^ t1 ^ h2 ^ a3 && e2 == a0 ^ a1 ^ t2 ^ h3 && e3 == h0 ^ a1 ^ a2 ^ t3
        ==> Mul11(e0) ^ Mul13(e1) ^ Mul9(e2) ^ Mul14(e3) == a3
  {
    Mul14Sum4(e3, h0, a1, a2, t3);
    Mul11Sum4(e0, t0, h1, a2, a3);
    Mul13Sum4(e1, a0, t1, h2, a3);
    Mul9Sum4(e2, a0, a1, t2, h3);
    InvTimesMix1(a0, t0, h0);
    InvTimesMix2(a1, t1, h1);
    InvTimesMix3(a2, t2, h2);
    InvTimesMix0(a3, t3, h3);
    SumCombine(Mul14(e3), Mul11(e0), Mul13(e1), Mul9(e2), 0, 0, 0, a3, Mul14(h0), Mul14(a1), Mul14(a2), Mul14(t3), Mul11(t0), Mul11(h1), Mul11(a2), Mul11(a3), Mul13(a0), Mul13(t1), Mul13(h2), Mul13(a3), Mul9(a0), Mul9(a1), Mul9(t2), Mul9(h3));
    SumExpand(Mul14(e3), Mul11(e0), Mul13(e1), Mul9(e2), 0, 0, 0, a3);
  }

  lemma MixedRow3(a0: bv8, a1: bv8, a2: bv8, a3: bv8, t0: bv8, t1: bv8, t2: bv8, t3: bv8, h0: bv8, h1: bv8, h2: bv8, h3: bv8)
    ensures t0 == XTime(a0) && h0 == Mul3(a0) && t1 == XTime(a1) && h1 == Mul3(a1) && t2 == XTime(a2) && h2 == Mul3(a2) && t3 == XTime(a3) && h3 == Mul3(a3)
        ==> Mul11(t0 ^ h1 ^ a2 ^ a3) ^ Mul13(a0 ^ t1 ^ h2 ^ a3) ^ Mul9(a0 ^ a1 ^ t2 ^ h3) ^ Mul14(h0 ^ a1 ^ a2 ^ t3) == a3
  {
    MixedBytes3(a0, a1, a2, a3, t0, t1, t2, t3, h0, h1, h2, h3, t0 ^ h1 ^ a2 ^ a3, a0 ^ t1 ^ h2 ^ a3, a0 ^ a1 ^ t2 ^ h3, h0 ^ a1 ^ a2 ^ t3);
  }

  /** Byte 3 of InvMixColumns applied to a mixed column is byte 3 of the column. */
  lemma InvMixRow3(a0: bv8, a1: bv8, a2: bv8, a3: bv8)
    ensures Mul11(XTime(a0) ^ Mul3(a1) ^ a2 ^ a3) ^ Mul13(a0 ^ XTime(a1) ^ Mul3(a2) ^ a3) ^ Mul9(a0 ^ a1 ^ XTime(a2) ^ Mul3(a3)) ^ Mul14(Mul3(a0) ^ a1 ^ a2 ^ XTime(a3)) == a3
  {
    MixedRow3(a0, a1, a2, a3, XTime(a0), XTime(a1), XTime(a2), XTime(a3), Mul3(a0), Mul3(a1), Mul3(a2), Mul3(a3));
  }

  /** InvMixColumns applied to the four bytes MixColumns computes. */
  lemma InvMixOfMix(a0: bv8, a1: bv8, a2: bv8, a3: bv8)
    ensures InvMixColumn(XTime(a0) ^ Mul3(a1) ^ a2 ^ a3, a0 ^ XTime(a1) ^ Mul3(a2) ^ a3,
                         a0 ^ a1 ^ XTime(a2) ^ Mul3(a3), Mul3(a0) ^ a1 ^ a2 ^ XTime(a3))
         == Pack(a0, a1, a2, a3)
  {
    InvMixRow0(a0, a1, a2, a3);
    InvMixRow1(a0, a1, a2, a3);
    InvMixRow2(a0, a1, a2, a3);
    InvMixRow3(a0, a1, a2, a3);
  }

  /** InvMixColumns undoes MixColumns on one column. */
  lemma InvMixMixColumn(a0: bv8, a1: bv8, a2: bv8, a3: bv8)
    ensures InvMixWord(MixColumn(a0, a1, a2, a3)) == Pack(a0, a1, a2, a3)
  {
    UnpackPack(XTime(a0) ^ Mul3(a1) ^ a2 ^ a3, a0 ^ XTime(a1) ^ Mul3(a2) ^ a3,
               a0 ^ a1 ^ XTime(a2) ^ Mul3(a3), Mul3(a0) ^ a1 ^ a2 ^ XTime(a3));
    InvMixOfMix(a0, a1, a2, a3);
  }

  /** InvMixColumns undoes MixColumns on a column word. */
  lemma InvMixMixWord(w: bv32)
    ensures InvMixWord(MixWord(w)) == w
  {
    InvMixMixColumn(Byte0(w), Byte1(w), Byte2(w), Byte3(w));
    PackUnpack(w);
  }

  /** InvMixColumns undoes MixColumns. */
  lemma InvMixMixColumns(s: State)
    ensures InvMixColumns(MixColumns(s)) == s
  {
    InvMixMixWord(s.c0);
    InvMixMixWord(s.c1);
    InvMixMixWord(s.c2);
    InvMixMixWord(s.c3);
  }

  // ---------------------------------------------------------------------
  // InvMixColumns distributes over AddRoundKey
  // ---------------------------------------------------------------------

  /**
   * One row of InvMixColumns on a sum of two columns: four products of sums
   * against the two rows.  The arguments are the products themselves.
   */
  lemma RowCombine(x: bv8, a: bv8, b: bv8, mx0: bv8, mx1: bv8, mx2: bv8, mx3: bv8,
                   ma0: bv8, ma1: bv8, ma2: bv8, ma3: bv8, mb0: bv8, mb1: bv8, mb2: bv8, mb3: bv8)
    ensures && x == mx0 ^ mx1 ^ mx2 ^ mx3 && a == ma0 ^ ma1 ^ ma2 ^ ma3 && b == mb0 ^ mb1 ^ mb2 ^ mb3
            && mx0 == ma0 ^ mb0 && mx1 == ma1 ^ mb1 && mx2 == ma2 ^ mb2 && mx3 == ma3 ^ mb3
            ==> x == a ^ b
  {
  }

  /** The bytes of InvMixColumn's result. */
  lemma InvMixColumnBytes(a0: bv8, a1: bv8, a2: bv8, a3: bv8)
    ensures && Byte0(InvMixColumn(a0, a1, a2, a3)) == Mul14(a0) ^ Mul11(a1) ^ Mul13(a2) ^ Mul9(a3)
            && Byte1(InvMixColumn(a0, a1, a2, a3)) == Mul9(a0) ^ Mul14(a1) ^ Mul11(a2) ^ Mul13(a3)
            && Byte2(InvMixColumn(a0, a1, a2, a3)) == Mul13(a0) ^ Mul9(a1) ^ Mul14(a2) ^ Mul11(a3)
            && Byte3(InvMixColumn(a0, a1, a2, a3)) == Mul11(a0) ^ Mul13(a1) ^ Mul9(a2) ^ Mul14(a3)
  {
    UnpackPack(Mul14(a0) ^ Mul11(a1) ^ Mul13(a2) ^ Mul9(a3), Mul9(a0) ^ Mul14(a1) ^ Mul11(a2) ^ Mul13(a3), Mul13(a0) ^ Mul9(a1) ^ Mul14(a2) ^ Mul11(a3), Mul11(a0) ^ Mul13(a1) ^ Mul9(a2) ^ Mul14(a3));
  }

  /** Byte 0 of InvMixColumn is linear. */
  lemma InvMixColumnXor0(x0: bv8, x1: bv8, x2: bv8, x3: bv8, a0: bv8, a1: bv8, a2: bv8, a3: bv8, b0: bv8, b1: bv8, b2: bv8, b3: bv8)
    ensures x0 == a0 ^ b0 && x1 == a1 ^ b1 && x2 == a2 ^ b2 && x3 == a3 ^ b3
        ==> Byte0(InvMixColumn(x0, x1, x2, x3)) == Byte0(InvMixColumn(a0, a1, a2, a3)) ^ Byte0(InvMixColumn(b0, b1, b2, b3))
  {
    InvMixColumnBytes(x0, x1, x2, x3);
    InvMixColumnBytes(a0, a1, a2, a3);
    InvMixColumnBytes(b0, b1, b2, b3);
    Mul14Split(x0, a0, b0);
    Mul11Split(x1, a1, b1);
    Mul13Split(x2, a2, b2);
    Mul9Split(x3, a3, b3);
    RowCombine(Byte0(InvMixColumn(x0, x1, x2, x3)), Byte0(InvMixColumn(a0, a1, a2, a3)), Byte0(InvMixColumn(b0, b1, b2, b3)), Mul14(x0), Mul11(x1), Mul13(x2), Mul9(x3), Mul14(a0), Mul11(a1), Mul13(a2), Mul9(a3), Mul14(b0), Mul11(b1), Mul13(b2), Mul9(b3));
  }

  /** Byte 1 of InvMixColumn is linear. */
  lemma InvMixColumnXor1(x0: bv8, x1: bv8, x2: bv8, x3: bv8, a0: bv8, a1: bv8, a2: bv8, a3: bv8, b0: bv8, b1: bv8, b2: bv8, b3: bv8)
    ensures x0 == a0 ^ b0 && x1 == a1 ^ b1 && x2 == a2 ^ b2 && x3 == a3 ^ b3
        ==> Byte1(InvMixColumn(x0, x1, x2, x3)) == Byte1(InvMixColumn(a0, a1, a2, a3)) ^ Byte1(InvMixColumn(b0, b1, b2, b3))
  {
    InvMixColumnBytes(x0, x1, x2, x3);
    InvMixColumnBytes(a0, a1, a2, a3);
    InvMixColumnBytes(b0, b1, b2, b3);
    Mul9Split(x0, a0, b0);
    Mul14Split(x1, a1, b1);
    Mul11Split(x2, a2, b2);
    Mul13Split(x3, a3, b3);
    RowCombine(Byte1(InvMixColumn(x0, x1, x2, x3)), Byte1(InvMixColumn(a0, a1, a2, a3)), Byte1(InvMixColumn(b0, b1, b2, b3)), Mul9(x0), Mul14(x1), Mul11(x2), Mul13(x3), Mul9(a0), Mul14(a1), Mul11(a2), Mul13(a3), Mul9(b0), Mul14(b1), Mul11(b2), Mul13(b3));
  }

  /** Byte 2 of InvMixColumn is linear. */
  lemma InvMixColumnXor2(x0: bv8, x1: bv8, x2: bv8, x3: bv8, a0: bv8, a1: bv8, a2: bv8, a3: bv8, b0: bv8, b1: bv8, b2: bv8, b3: bv8)
    ensures x0 == a0 ^ b0 && x1 == a1 ^ b1 && x2 == a2 ^ b2 && x3 == a3 ^ b3
        ==> Byte2(InvMixColumn(x0, x1, x2, x3)) == Byte2(InvMixColumn(a0, a1, a2, a3)) ^ Byte2(InvMixColumn(b0, b1, b2, b3))
  {
    InvMixColumnBytes(x0, x1, x2, x3);
    InvMixColumnBytes(a0, a1, a2, a3);
    InvMixColumnBytes(b0, b1, b2, b3);
    Mul13Split(x0, a0, b0);
    Mul9Split(x1, a1, b1);
    Mul14Split(x2, a2, b2);
    Mul11Split(x3, a3, b3);
    RowCombine(Byte2(InvMixColumn(x0, x1, x2, x3)), Byte2(InvMixColumn(a0, a1, a2, a3)), Byte2(InvMixColumn(b0, b1, b2, b3)), Mul13(x0), Mul9(x1), Mul14(x2), Mul11(x3), Mul13(a0), Mul9(a1), Mul14(a2), Mul11(a3), Mul13(b0), Mul9(b1), Mul14(b2), Mul11(b3));
  }

  /** Byte 3 of InvMixColumn is linear. */
  lemma InvMixColumnXor3(x0: bv8, x1: bv8, x2: bv8, x3: bv8, a0: bv8, a1: bv8, a2: bv8, a3: bv8, b0: bv8, b1: bv8, b2: bv8, b3: bv8)
    ensures x0 == a0 ^ b0 && x1 == a1 ^ b1 && x2 == a2 ^ b2 && x3 == a3 ^ b3
        ==> Byte3(InvMixColumn(x0, x1, x2, x3)) == Byte3(InvMixColumn(a0, a1, a2, a3)) ^ Byte3(InvMixColumn(b0, b1, b2, b3))
  {
    InvMixColumnBytes(x0, x1, x2, x3);
    InvMixColumnBytes(a0, a1, a2, a3);
    InvMixColumnBytes(b0, b1, b2, b3);
    Mul11Split(x0, a0, b0);
    Mul13Split(x1, a1, b1);
    Mul9Split(x2, a2, b2);
    Mul14Split(x3, a3, b3);
    RowCombine(Byte3(InvMixColumn(x0, x1, x2, x3)), Byte3(InvMixColumn(a0, a1, a2, a3)), Byte3(InvMixColumn(b0, b1, b2, b3)), Mul11(x0), Mul13(x1), Mul9(x2), Mul14(x3), Mul11(a0), Mul13(a1), Mul9(a2), Mul14(a3), Mul11(b0), Mul13(b1), Mul9(b2), Mul14(b3));
  }

  /** Words that agree byte by byte are equal. */
  lemma WordFromBytes(x: bv32, y: bv32, z: bv32)
    ensures && Byte0(x) == Xor8(Byte0(y), Byte0(z)) && Byte1(x) == Xor8(Byte1(y), Byte1(z))
            && Byte2(x) == Xor8(Byte2(y), Byte2(z)) && Byte3(x) == Xor8(Byte3(y), Byte3(z))
            ==> x == XorWord(y, z)
  {
  }

  /** A sum of words, restated through equal words. */
  lemma WordSubst(x: bv32, y: bv32, z: bv32, x': bv32, y': bv32, z': bv32)
    ensures x == x' && y == y' && z == z' && x' == XorWord(y', z') ==> x == XorWord(y, z)
  {
  }

  /** Byte 0 of InvMixColumn is additive over the bytes of two words. */
  lemma InvMixWordByteXor0(u: bv32, v: bv32, x0: bv8, x1: bv8, x2: bv8, x3: bv8, a0: bv8, a1: bv8, a2: bv8, a3: bv8, b0: bv8, b1: bv8, b2: bv8, b3: bv8)
    ensures && x0 == Byte0(u ^ v) && x1 == Byte1(u ^ v) && x2 == Byte2(u ^ v) && x3 == Byte3(u ^ v)
            && a0 == Byte0(u) && a1 == Byte1(u) && a2 == Byte2(u) && a3 == Byte3(u)
            && b0 == Byte0(v) && b1 == Byte1(v) && b2 == Byte2(v) && b3 == Byte3(v)
        ==> Byte0(InvMixColumn(x0, x1, x2, x3)) == Xor8(Byte0(InvMixColumn(a0, a1, a2, a3)), Byte0(InvMixColumn(b0, b1, b2, b3)))
  {
    BytesXor(u, v);
    InvMixColumnXor0(x0, x1, x2, x3, a0, a1, a2, a3, b0, b1, b2, b3);
  }
  /** Byte 1 of InvMixColumn is additive over the bytes of two words. */
  lemma InvMixWordByteXor1(u: bv32, v: bv32, x0: bv8, x1: bv8, x2: bv8, x3: bv8, a0: bv8, a1: bv8, a2: bv8, a3: bv8, b0: bv8, b1: bv8, b2: bv8, b3: bv8)
    ensures && x0 == Byte0(u ^ v) && x1 == Byte1(u ^ v) && x2 == Byte2(u ^ v) && x3 == Byte3(u ^ v)
            && a0 == Byte0(u) && a1 == Byte1(u) && a2 == Byte2(u) && a3 == Byte3(u)
            && b0 == Byte0(v) && b1 == Byte1(v) && b2 == Byte2(v) && b3 == Byte3(v)
        ==> Byte1(InvMixColumn(x0, x1, x2, x3)) == Xor8(Byte1(InvMixColumn(a0, a1, a2, a3)), Byte1(InvMixColumn(b0, b1, b2, b3)))
  {
    BytesXor(u, v);
    InvMixColumnXor1(x0, x1, x2, x3, a0, a1, a2, a3, b0, b1, b2, b3);
  }
  /** Byte 2 of InvMixColumn is additive over the bytes of two words. */
  lemma InvMixWordByteXor2(u: bv32, v: bv32, x0: bv8, x1: bv8, x2: bv8, x3: bv8, a0: bv8, a1: bv8, a2: bv8, a3: bv8, b0: bv8, b1: bv8, b2: bv8, b3: bv8)
    ensures && x0 == Byte0(u ^ v) && x1 == Byte1(u ^ v) && x2 == Byte2(u ^ v) && x3 == Byte3(u ^ v)
            && a0 == Byte0(u) && a1 == Byte1(u) && a2 == Byte2(u) && a3 == Byte3(u)
            && b0 == Byte0(v) && b1 == Byte1(v) && b2 == Byte2(v) && b3 == Byte3(v)
        ==> Byte2(InvMixColumn(x0, x1, x2, x3)) == Xor8(Byte2(InvMixColumn(a0, a1, a2, a3)), Byte2(InvMixColumn(b0, b1, b2, b3)))
  {
    BytesXor(u, v);
    InvMixColumnXor2(x0, x1, x2, x3, a0, a1, a2, a3, b0, b1, b2, b3);
  }
  /** Byte 3 of InvMixColumn is additive over the bytes of two words. */
  lemma InvMixWordByteXor3(u: bv32, v: bv32, x0: bv8, x1: bv8, x2: bv8, x3: bv8, a0: bv8, a1: bv8, a2: bv8, a3: bv8, b0: bv8, b1: bv8, b2: bv8, b3: bv8)
    ensures && x0 == Byte0(u ^ v) && x1 == Byte1(u ^ v) && x2 == Byte2(u ^ v) && x3 == Byte3(u ^ v)
            && a0 == Byte0(u) && a1 == Byte1(u) && a2 == Byte2(u) && a3 == Byte3(u)
            && b0 == Byte0(v) && b1 == Byte1(v) && b2 == Byte2(v) && b3 == Byte3(v)
        ==> Byte3(InvMixColumn(x0, x1, x2, x3)) == Xor8(Byte3(InvMixColumn(a0, a1, a2, a3)), Byte3(InvMixColumn(b0, b1, b2, b3)))
  {
    BytesXor(u, v);
    InvMixColumnXor3(x0, x1, x2, x3, a0, a1, a2, a3, b0, b1, b2, b3);
  }
  /** InvMixColumns of a sum of two column words is the sum of the two InvMixColumns. */
  lemma InvMixWordXor(u: bv32, v: bv32)
    ensures InvMixWord(XorWord(u, v)) == XorWord(InvMixWord(u), InvMixWord(v))
  {
    InvMixWordByteXor0(u, v, Byte0(u ^ v), Byte1(u ^ v), Byte2(u ^ v), Byte3(u ^ v), Byte0(u), Byte1(u), Byte2(u), Byte3(u), Byte0(v), Byte1(v), Byte2(v), Byte3(v));
    InvMixWordByteXor1(u, v, Byte0(u ^ v), Byte1(u ^ v), Byte2(u ^ v), Byte3(u ^ v), Byte0(u), Byte1(u), Byte2(u), Byte3(u), Byte0(v), Byte1(v), Byte2(v), Byte3(v));
    InvMixWordByteXor2(u, v, Byte0(u ^ v), Byte1(u ^ v), Byte2(u ^ v), Byte3(u ^ v), Byte0(u), Byte1(u), Byte2(u), Byte3(u), Byte0(v), Byte1(v), Byte2(v), Byte3(v));
    InvMixWordByteXor3(u, v, Byte0(u ^ v), Byte1(u ^ v), Byte2(u ^ v), Byte3(u ^ v), Byte0(u), Byte1(u), Byte2(u), Byte3(u), Byte0(v), Byte1(v), Byte2(v), Byte3(v));
    WordFromBytes(InvMixColumn(Byte0(u ^ v), Byte1(u ^ v), Byte2(u ^ v), Byte3(u ^ v)), InvMixColumn(Byte0(u), Byte1(u), Byte2(u), Byte3(u)), InvMixColumn(Byte0(v), Byte1(v), Byte2(v), Byte3(v)));
    WordSubst(InvMixWord(XorWord(u, v)), InvMixWord(u), InvMixWord(v),
              InvMixColumn(Byte0(u ^ v), Byte1(u ^ v), Byte2(u ^ v), Byte3(u ^ v)), InvMixColumn(Byte0(u), Byte1(u), Byte2(u), Byte3(u)), InvMixColumn(Byte0(v), Byte1(v), Byte2(v), Byte3(v)));
  }

  /** InvMixColumns of a state plus a round key: both InvMixColumns added. */
  lemma InvMixArk(s: State, k: State)
    ensures InvMixColumns(AddRoundKey(s, k)) == AddRoundKey(InvMixColumns(s), InvMixColumns(k))
  {
    InvMixWordXor(s.c0, k.c0);
    InvMixWordXor(s.c1, k.c1);
    InvMixWordXor(s.c2, k.c2);
    InvMixWordXor(s.c3, k.c3);
  }

  /** Adding the same word twice gives back the word. */
  lemma XorWordTwice(a: bv32, b: bv32)
    ensures XorWord(XorWord(a, b), b) == a
  {
  }

  /** Adding the same round key twice gives back the state. */
  lemma ArkArk(s: State, k: State)
    ensures AddRoundKey(AddRoundKey(s, k), k) == s
  {
    XorWordTwice(s.c0, k.c0);
    XorWordTwice(s.c1, k.c1);
    XorWordTwice(s.c2, k.c2);
    XorWordTwice(s.c3, k.c3);
  }

  // ---------------------------------------------------------------------
  // SubBytes and ShiftRows
  // ---------------------------------------------------------------------

  /** InvSubWord undoes SubWord. */
  lemma InvSubWordSubWord(w: bv32)
    ensures InvSubWord(SubWord(w)) == w
  {
    UnpackPack(Sbox(Byte0(w)), Sbox(Byte1(w)), Sbox(Byte2(w)), Sbox(Byte3(w)));
    InvSboxSbox(Byte0(w));
    InvSboxSbox(Byte1(w));
    InvSboxSbox(Byte2(w));
    InvSboxSbox(Byte3(w));
    PackUnpack(w);
  }

  /** InvSubBytes undoes SubBytes. */
  lemma InvSubSub(s: State)
    ensures InvSubBytes(SubBytes(s)) == s
  {
    InvSubWordSubWord(s.c0);
    InvSubWordSubWord(s.c1);
    InvSubWordSubWord(s.c2);
    InvSubWordSubWord(s.c3);
  }

  /** InvShiftRows undoes ShiftRows. */
  lemma InvShiftShift(s: State)
    ensures InvShiftRows(ShiftRows(s)) == s
  {
    UnpackPack(Byte0(s.c0), Byte1(s.c1), Byte2(s.c2), Byte3(s.c3));
    UnpackPack(Byte0(s.c1), Byte1(s.c2), Byte2(s.c3), Byte3(s.c0));
    UnpackPack(Byte0(s.c2), Byte1(s.c3), Byte2(s.c0), Byte3(s.c1));
    UnpackPack(Byte0(s.c3), Byte1(s.c0), Byte2(s.c1), Byte3(s.c2));
    PackUnpack(s.c0);
    PackUnpack(s.c1);
    PackUnpack(s.c2);
    PackUnpack(s.c3);
  }

  /** The inverse S-box acts on each byte, so it commutes with the rotation of the rows. */
  lemma InvSubShiftCommute(s: State)
    ensures InvSubBytes(ShiftRows(s)) == ShiftRows(InvSubBytes(s))
  {
    UnpackPack(Byte0(s.c0), Byte1(s.c1), Byte2(s.c2), Byte3(s.c3));
    UnpackPack(Byte0(s.c1), Byte1(s.c2), Byte2(s.c3), Byte3(s.c0));
    UnpackPack(Byte0(s.c2), Byte1(s.c3), Byte2(s.c0), Byte3(s.c1));
    UnpackPack(Byte0(s.c3), Byte1(s.c0), Byte2(s.c1), Byte3(s.c2));
    UnpackPack(InvSbox(Byte0(s.c0)), InvSbox(Byte1(s.c0)), InvSbox(Byte2(s.c0)), InvSbox(Byte3(s.c0)));
    UnpackPack(InvSbox(Byte0(s.c1)), InvSbox(Byte1(s.c1)), InvSbox(Byte2(s.c1)), InvSbox(Byte3(s.c1)));
    UnpackPack(InvSbox(Byte0(s.c2)), InvSbox(Byte1(s.c2)), InvSbox(Byte2(s.c2)), InvSbox(Byte3(s.c2)));
    UnpackPack(InvSbox(Byte0(s.c3)), InvSbox(Byte1(s.c3)), InvSbox(Byte2(s.c3)), InvSbox(Byte3(s.c3)));
  }

  /** The first two steps of an inverse round undo the first two steps of a round. */
  lemma InvSubShiftUndo(s: State)
    ensures InvShiftRows(InvSubBytes(ShiftRows(SubBytes(s)))) == s
  {
    InvSubShiftCommute(SubBytes(s));
    InvSubSub(s);
    InvShiftShift(s);
  }

  // ---------------------------------------------------------------------
  // Blocks
  // ---------------------------------------------------------------------

  /** Reading back a stored state gives the state. */
  lemma LoadStore(s: State)
    ensures Load(Store(s)) == s
  {
    var b := Store(s);
    assert b[0..4] == PutU32(s.c0) && b[4..8] == PutU32(s.c1);
    assert b[8..12] == PutU32(s.c2) && b[12..16] == PutU32(s.c3);
    PackUnpack(s.c0);
    PackUnpack(s.c1);
    PackUnpack(s.c2);
    PackUnpack(s.c3);
  }

  /** Storing a loaded block gives back its first 16 bytes. */
  lemma StoreLoad(b: seq<bv8>)
    requires |b| >= 16
    ensures Store(Load(b)) == b[..16]
  {
    PutGetU32(b, 0);
    PutGetU32(b, 4);
    PutGetU32(b, 8);
    PutGetU32(b, 12);
    assert b[..16] == b[0..4] + b[4..8] + b[8..12] + b[12..16];
  }

  // ---------------------------------------------------------------------
  // Rounds and the decryption schedule
  // ---------------------------------------------------------------------

  /**
   * An inverse round with the InvMixColumns image of round key K undoes the
   * MixColumns and AddRoundKey of a round with K and the SubBytes and
   * ShiftRows of the round after it.
   */
  lemma StepUndo(x: State, k: State)
    ensures InvRound(ShiftRows(SubBytes(Round(x, k))), InvMixColumns(k)) == ShiftRows(SubBytes(x))
  {
    var z := ShiftRows(SubBytes(x));
    InvSubShiftUndo(Round(x, k));
    InvMixArk(MixColumns(z), k);
    InvMixMixColumns(z);
    ArkArk(z, InvMixColumns(k));
  }

  /** StepUndo for round j + 1 of the cipher. */
  lemma UndoRound(s: State, w: seq<bv32>, j: nat)
    requires 4 * j + 8 <= |w|
    ensures InvRound(ShiftRows(SubBytes(Rounds1To(s, w, j + 1))), InvMixColumns(RoundKey(w, j + 1)))
         == ShiftRows(SubBytes(Rounds1To(s, w, j)))
  {
    assert Rounds1To(s, w, j + 1) == AfterRound(s, w, j + 1) == RoundOf(s, w, j + 1);
    StepUndo(Rounds1To(s, w, j), RoundKey(w, j + 1));
  }

  /** Word 4g + c of the schedule is in group g at column c. */
  lemma GroupColumn(g: nat, c: nat)
    requires c < 4
    ensures (4 * g + c) / 4 == g && (4 * g + c) % 4 == c
  {
  }

  /** The first round key of the decryption schedule is the last of the cipher's. */
  lemma DecKeyFirst(w: seq<bv32>, nr: nat)
    requires 4 * nr + 4 <= |w|
    ensures RoundKey(DecSchedule(w, nr), 0) == RoundKey(w, nr)
  {
    GroupColumn(0, 1);
    GroupColumn(0, 2);
    GroupColumn(0, 3);
  }

  /** The last round key of the decryption schedule is the first of the cipher's. */
  lemma DecKeyLast(w: seq<bv32>, nr: nat)
    requires 4 * nr + 4 <= |w|
    ensures RoundKey(DecSchedule(w, nr), nr) == RoundKey(w, 0)
  {
    GroupColumn(nr, 0);
    GroupColumn(nr, 1);
    GroupColumn(nr, 2);
    GroupColumn(nr, 3);
  }

  /** Round key k of the decryption schedule, 0 < k < Nr, is InvMixColumns of round key j = Nr - k. */
  lemma DecKeyMiddle(w: seq<bv32>, nr: nat, k: nat, j: nat)
    requires 1 <= k && 1 <= j && j + k == nr && 4 * nr + 4 <= |w|
    ensures RoundKey(DecSchedule(w, nr), k) == InvMixColumns(RoundKey(w, j))
  {
    GroupColumn(k, 0);
    GroupColumn(k, 1);
    GroupColumn(k, 2);
    GroupColumn(k, 3);
  }

  /** One inverse round of the decryption schedule: round k undoes round j + 1 = Nr - k of the cipher. */
  lemma UndoRoundOf(s: State, w: seq<bv32>, nr: nat, k: nat, j: nat)
    requires 1 <= k && j + k == nr - 1 && 4 * nr + 4 <= |w|
    ensures InvRounds1To(ShiftRows(SubBytes(Rounds1To(s, w, nr - 1))), DecSchedule(w, nr), k - 1) == ShiftRows(SubBytes(Rounds1To(s, w, j + 1)))
            ==> InvRoundOf(ShiftRows(SubBytes(Rounds1To(s, w, nr - 1))), DecSchedule(w, nr), k) == ShiftRows(SubBytes(Rounds1To(s, w, j)))
  {
    var t := ShiftRows(SubBytes(Rounds1To(s, w, nr - 1)));
    var dw := DecSchedule(w, nr);
    DecKeyMiddle(w, nr, k, j + 1);
    UndoRound(s, w, j);
    InvRoundCong(InvRounds1To(t, dw, k - 1), ShiftRows(SubBytes(Rounds1To(s, w, j + 1))),
                 RoundKey(dw, k), InvMixColumns(RoundKey(w, j + 1)), ShiftRows(SubBytes(Rounds1To(s, w, j))));
  }

  /** UndoRoundOf, stated on the state after k inverse rounds. */
  lemma InvRoundStep(s: State, w: seq<bv32>, nr: nat, k: nat, j: nat)
    requires 1 <= k && j + k == nr - 1 && 4 * nr + 4 <= |w|
    ensures InvRounds1To(ShiftRows(SubBytes(Rounds1To(s, w, nr - 1))), DecSchedule(w, nr), k - 1) == ShiftRows(SubBytes(Rounds1To(s, w, j + 1)))
            ==> InvRounds1To(ShiftRows(SubBytes(Rounds1To(s, w, nr - 1))), DecSchedule(w, nr), k) == ShiftRows(SubBytes(Rounds1To(s, w, j)))
  {
    UndoRoundOf(s, w, nr, k, j);
    assert InvRounds1To(ShiftRows(SubBytes(Rounds1To(s, w, nr - 1))), DecSchedule(w, nr), k)
        == AfterInvRound(ShiftRows(SubBytes(Rounds1To(s, w, nr - 1))), DecSchedule(w, nr), k)
        == InvRoundOf(ShiftRows(SubBytes(Rounds1To(s, w, nr - 1))), DecSchedule(w, nr), k);
  }

  /** Equal arguments give equal inverse rounds. */
  lemma InvRoundCong(x: State, y: State, kx: State, ky: State, z: State)
    ensures x == y && kx == ky && InvRound(y, ky) == z ==> InvRound(x, kx) == z
  {
  }

  /**
   * k inverse rounds with the decryption schedule take the cipher's state
   * after SubBytes and ShiftRows of round Nr back to the same point of
   * round j + 1 = Nr - k.
   */
  lemma {:induction false} InvRoundsUndo(s: State, w: seq<bv32>, nr: nat, k: nat, j: nat)
    requires 1 <= nr && j + k == nr - 1 && 4 * nr + 4 <= |w|
    ensures InvRounds1To(ShiftRows(SubBytes(Rounds1To(s, w, nr - 1))), DecSchedule(w, nr), k) == ShiftRows(SubBytes(Rounds1To(s, w, j)))
    decreases k
  {
    if k == 0 {
      SubShiftCong(s, w, nr - 1, j);
    } else {
      InvRoundsUndo(s, w, nr, k - 1, j + 1);
      InvRoundStep(s, w, nr, k, j);
    }
  }

  /** Rounds1To at equal indices, after SubBytes and ShiftRows. */
  lemma SubShiftCong(s: State, w: seq<bv32>, a: nat, b: nat)
    ensures a == b && 4 * a + 4 <= |w| ==> ShiftRows(SubBytes(Rounds1To(s, w, a))) == ShiftRows(SubBytes(Rounds1To(s, w, b)))
  {
  }

  /** The equivalent inverse cipher with the decryption schedule of w undoes the cipher with w. */
  lemma EqInvCipherCipher(w: seq<bv32>, nr: nat, input: seq<bv8>)
    requires 1 <= nr && 4 * nr + 4 <= |w| && |input| >= 16
    ensures EqInvCipher(DecSchedule(w, nr), nr, Cipher(w, nr, input)) == input[..16]
  {
    var dw := DecSchedule(w, nr);
    var e0 := AddRoundKey(Load(input), RoundKey(w, 0));
    var last := Rounds1To(e0, w, nr - 1);
    var t := ShiftRows(SubBytes(last));
    var out := FinalRound(last, RoundKey(w, nr));
    assert Cipher(w, nr, input) == Store(out);
    LoadStore(out);
    DecKeyFirst(w, nr);
    ArkArk(t, RoundKey(w, nr));
    InvRoundsUndo(e0, w, nr, nr - 1, 0);
    assert Rounds1To(e0, w, 0) == e0;
    InvSubShiftUndo(e0);
    DecKeyLast(w, nr);
    ArkArk(Load(input), RoundKey(w, 0));
    StoreLoad(input);
  }

  /** AES decryption undoes AES encryption under the same cipher key. */
  lemma AesDecryptEncrypt(key: seq<bv8>, input: seq<bv8>)
    requires AesKey(key) && |input| >= 16
    ensures AesDecrypt(key, AesEncrypt(key, input)) == input[..16]
  {
    EqInvCipherCipher(KeySchedule(key), KeyRounds(key), input);
  }
}
