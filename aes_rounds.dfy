/**
 * The table-driven rounds of rijndael.c are the rounds of FIPS-197.
 *
 * Each lemma takes the words rijndael.c holds in its variables and states
 * the code's expression for a new word (T-table lookups, masked or XOR-ed,
 * exactly as rijndael.c writes them) equal to the corresponding part of the
 * AesSpec transformation.  The round-key word is added with XorWord, as in
 * AesSpec.AddRoundKey.
 */
module AesRounds {
  import opened Bytes
  import opened AesTables
  import opened AesSpec

  // ---------------------------------------------------------------------
  // Unfoldings stated as lemmas, and XOR congruence
  // ---------------------------------------------------------------------

  lemma MixColumnDef(a0: bv8, a1: bv8, a2: bv8, a3: bv8)
    ensures MixColumn(a0, a1, a2, a3)
         == Pack(XTime(a0) ^ Mul3(a1) ^ a2 ^ a3, a0 ^ XTime(a1) ^ Mul3(a2) ^ a3,
                 a0 ^ a1 ^ XTime(a2) ^ Mul3(a3), Mul3(a0) ^ a1 ^ a2 ^ XTime(a3))
  {
  }

  lemma InvMixColumnDef(a0: bv8, a1: bv8, a2: bv8, a3: bv8)
    ensures InvMixColumn(a0, a1, a2, a3)
         == Pack(Mul14(a0) ^ Mul11(a1) ^ Mul13(a2) ^ Mul9(a3),
                 Mul9(a0) ^ Mul14(a1) ^ Mul11(a2) ^ Mul13(a3),
                 Mul13(a0) ^ Mul9(a1) ^ Mul14(a2) ^ Mul11(a3),
                 Mul11(a0) ^ Mul13(a1) ^ Mul9(a2) ^ Mul14(a3))
  {
  }

  /** Equal operands give equal XORs of four words. */
  lemma Xor4Congruence(w0: bv32, w1: bv32, w2: bv32, w3: bv32, p0: bv32, p1: bv32, p2: bv32, p3: bv32)
    ensures w0 == p0 && w1 == p1 && w2 == p2 && w3 == p3 ==> w0 ^ w1 ^ w2 ^ w3 == p0 ^ p1 ^ p2 ^ p3
  {
  }

  // ---------------------------------------------------------------------
  // Encryption
  // ---------------------------------------------------------------------

  /** The T-table columns of four S-box outputs, XOR-ed, are their MixColumn. */
  lemma TeColumnBytes(s0: bv8, s1: bv8, s2: bv8, s3: bv8)
    ensures Pack(XTime(s0), s0, s0, Mul3(s0)) ^ Pack(Mul3(s1), XTime(s1), s1, s1)
          ^ Pack(s2, Mul3(s2), XTime(s2), s2) ^ Pack(s3, s3, Mul3(s3), XTime(s3))
         == MixColumn(s0, s1, s2, s3)
  {
    PackXor4(XTime(s0), s0, s0, Mul3(s0), Mul3(s1), XTime(s1), s1, s1,
             s2, Mul3(s2), XTime(s2), s2, s3, s3, Mul3(s3), XTime(s3));
    MixColumnDef(s0, s1, s2, s3);
  }

  /**
   * One output column of a full encryption round, before the round key:
   * Te0..Te3 looked up with byte r of word r, XOR-ed, is SubBytes then
   * MixColumns of that diagonal.
   */
  lemma TeColumn(w0: bv32, w1: bv32, w2: bv32, w3: bv32)
    ensures Te0(Byte0(w0)) ^ Te1(Byte1(w1)) ^ Te2(Byte2(w2)) ^ Te3(Byte3(w3))
         == MixColumn(Sbox(Byte0(w0)), Sbox(Byte1(w1)), Sbox(Byte2(w2)), Sbox(Byte3(w3)))
  {
    var s0, s1, s2, s3 := Sbox(Byte0(w0)), Sbox(Byte1(w1)), Sbox(Byte2(w2)), Sbox(Byte3(w3));
    Xor4Congruence(Te0(Byte0(w0)), Te1(Byte1(w1)), Te2(Byte2(w2)), Te3(Byte3(w3)),
      Pack(XTime(s0), s0, s0, Mul3(s0)), Pack(Mul3(s1), XTime(s1), s1, s1),
      Pack(s2, Mul3(s2), XTime(s2), s2), Pack(s3, s3, Mul3(s3), XTime(s3)));
    TeColumnBytes(s0, s1, s2, s3);
  }

  /** The bytes of SubBytes followed by ShiftRows, column by column. */
  lemma SubShiftBytes(s0: bv32, s1: bv32, s2: bv32, s3: bv32)
    ensures var sb := SubBytes(State(s0, s1, s2, s3));
      Byte0(sb.c0) == Sbox(Byte0(s0)) && Byte1(sb.c1) == Sbox(Byte1(s1))
      && Byte2(sb.c2) == Sbox(Byte2(s2)) && Byte3(sb.c3) == Sbox(Byte3(s3))
  {
    UnpackPack(Sbox(Byte0(s0)), Sbox(Byte1(s0)), Sbox(Byte2(s0)), Sbox(Byte3(s0)));
    UnpackPack(Sbox(Byte0(s1)), Sbox(Byte1(s1)), Sbox(Byte2(s1)), Sbox(Byte3(s1)));
    UnpackPack(Sbox(Byte0(s2)), Sbox(Byte1(s2)), Sbox(Byte2(s2)), Sbox(Byte3(s2)));
    UnpackPack(Sbox(Byte0(s3)), Sbox(Byte1(s3)), Sbox(Byte2(s3)), Sbox(Byte3(s3)));
  }

  /**
   * One iteration half of rijndaelEncrypt's loop: the four T-table column
   * computations from s0..s3 and the round-key words k0..k3 are one
   * FIPS-197 round.
   */
  lemma EncRound(s0: bv32, s1: bv32, s2: bv32, s3: bv32, k0: bv32, k1: bv32, k2: bv32, k3: bv32)
    ensures Round(State(s0, s1, s2, s3), State(k0, k1, k2, k3))
         == State(XorWord(Te0(Byte0(s0)) ^ Te1(Byte1(s1)) ^ Te2(Byte2(s2)) ^ Te3(Byte3(s3)), k0),
                  XorWord(Te0(Byte0(s1)) ^ Te1(Byte1(s2)) ^ Te2(Byte2(s3)) ^ Te3(Byte3(s0)), k1),
                  XorWord(Te0(Byte0(s2)) ^ Te1(Byte1(s3)) ^ Te2(Byte2(s0)) ^ Te3(Byte3(s1)), k2),
                  XorWord(Te0(Byte0(s3)) ^ Te1(Byte1(s0)) ^ Te2(Byte2(s1)) ^ Te3(Byte3(s2)), k3))
  {
    var sb := SubBytes(State(s0, s1, s2, s3));
    SubShiftBytes(s0, s1, s2, s3);
    SubShiftBytes(s1, s2, s3, s0);
    SubShiftBytes(s2, s3, s0, s1);
    SubShiftBytes(s3, s0, s1, s2);
    UnpackPack(Byte0(sb.c0), Byte1(sb.c1), Byte2(sb.c2), Byte3(sb.c3));
    UnpackPack(Byte0(sb.c1), Byte1(sb.c2), Byte2(sb.c3), Byte3(sb.c0));
    UnpackPack(Byte0(sb.c2), Byte1(sb.c3), Byte2(sb.c0), Byte3(sb.c1));
    UnpackPack(Byte0(sb.c3), Byte1(sb.c0), Byte2(sb.c1), Byte3(sb.c2));
    TeColumn(s0, s1, s2, s3);
    TeColumn(s1, s2, s3, s0);
    TeColumn(s2, s3, s0, s1);
    TeColumn(s3, s0, s1, s2);
  }

  /** Te2's top byte is the S-box output: the lane the last round keeps for row 0. */
  lemma Te2Lane(x: bv8)
    ensures Te2(x) & 0xff000000 == (Sbox(x) as bv32) << 24
  {
  }

  /** Te3's second byte is the S-box output. */
  lemma Te3Lane(x: bv8)
    ensures Te3(x) & 0x00ff0000 == (Sbox(x) as bv32) << 16
  {
  }

  /** Te0's third byte is the S-box output. */
  lemma Te0Lane(x: bv8)
    ensures Te0(x) & 0x0000ff00 == (Sbox(x) as bv32) << 8
  {
  }

  /** Te1's bottom byte is the S-box output. */
  lemma Te1Lane(x: bv8)
    ensures Te1(x) & 0x000000ff == Sbox(x) as bv32
  {
  }

  /**
   * Keeping the S-box byte of four T-table entries (Te2 for row 0, Te3 for
   * row 1, Te0 for row 2, Te1 for row 3) assembles the four S-box outputs.
   */
  lemma TeLanes(x0: bv8, x1: bv8, x2: bv8, x3: bv8)
    ensures (Te2(x0) & 0xff000000) ^ (Te3(x1) & 0x00ff0000) ^ (Te0(x2) & 0x0000ff00) ^ (Te1(x3) & 0x000000ff)
         == Pack(Sbox(x0), Sbox(x1), Sbox(x2), Sbox(x3))
  {
    Te2Lane(x0);
    Te3Lane(x1);
    Te0Lane(x2);
    Te1Lane(x3);
  }

  /** One output column of the last encryption round, before the round key. */
  lemma TeFinalColumn(w0: bv32, w1: bv32, w2: bv32, w3: bv32)
    ensures (Te2(Byte0(w0)) & 0xff000000) ^ (Te3(Byte1(w1)) & 0x00ff0000)
          ^ (Te0(Byte2(w2)) & 0x0000ff00) ^ (Te1(Byte3(w3)) & 0x000000ff)
         == Pack(Sbox(Byte0(w0)), Sbox(Byte1(w1)), Sbox(Byte2(w2)), Sbox(Byte3(w3)))
  {
    TeLanes(Byte0(w0), Byte1(w1), Byte2(w2), Byte3(w3));
  }

  /** The last-round computations of rijndaelEncrypt are the FIPS-197 final round. */
  lemma EncFinalRound(t0: bv32, t1: bv32, t2: bv32, t3: bv32, k0: bv32, k1: bv32, k2: bv32, k3: bv32)
    ensures FinalRound(State(t0, t1, t2, t3), State(k0, k1, k2, k3))
         == State(XorWord((Te2(Byte0(t0)) & 0xff000000) ^ (Te3(Byte1(t1)) & 0x00ff0000)
                          ^ (Te0(Byte2(t2)) & 0x0000ff00) ^ (Te1(Byte3(t3)) & 0x000000ff), k0),
                  XorWord((Te2(Byte0(t1)) & 0xff000000) ^ (Te3(Byte1(t2)) & 0x00ff0000)
                          ^ (Te0(Byte2(t3)) & 0x0000ff00) ^ (Te1(Byte3(t0)) & 0x000000ff), k1),
                  XorWord((Te2(Byte0(t2)) & 0xff000000) ^ (Te3(Byte1(t3)) & 0x00ff0000)
                          ^ (Te0(Byte2(t0)) & 0x0000ff00) ^ (Te1(Byte3(t1)) & 0x000000ff), k2),
                  XorWord((Te2(Byte0(t3)) & 0xff000000) ^ (Te3(Byte1(t0)) & 0x00ff0000)
                          ^ (Te0(Byte2(t1)) & 0x0000ff00) ^ (Te1(Byte3(t2)) & 0x000000ff), k3))
  {
    SubShiftBytes(t0, t1, t2, t3);
    SubShiftBytes(t1, t2, t3, t0);
    SubShiftBytes(t2, t3, t0, t1);
    SubShiftBytes(t3, t0, t1, t2);
    TeFinalColumn(t0, t1, t2, t3);
    TeFinalColumn(t1, t2, t3, t0);
    TeFinalColumn(t2, t3, t0, t1);
    TeFinalColumn(t3, t0, t1, t2);
  }

  // ---------------------------------------------------------------------
  // Decryption
  // ---------------------------------------------------------------------

  /** The Td-table columns of four bytes, XOR-ed, are their InvMixColumn. */
  lemma TdColumnBytes(s0: bv8, s1: bv8, s2: bv8, s3: bv8)
    ensures Pack(Mul14(s0), Mul9(s0), Mul13(s0), Mul11(s0)) ^ Pack(Mul11(s1), Mul14(s1), Mul9(s1), Mul13(s1))
          ^ Pack(Mul13(s2), Mul11(s2), Mul14(s2), Mul9(s2)) ^ Pack(Mul9(s3), Mul13(s3), Mul11(s3), Mul14(s3))
         == InvMixColumn(s0, s1, s2, s3)
  {
    PackXor4(Mul14(s0), Mul9(s0), Mul13(s0), Mul11(s0), Mul11(s1), Mul14(s1), Mul9(s1), Mul13(s1),
             Mul13(s2), Mul11(s2), Mul14(s2), Mul9(s2), Mul9(s3), Mul13(s3), Mul11(s3), Mul14(s3));
    InvMixColumnDef(s0, s1, s2, s3);
  }

  /** Td0..Td3 looked up with byte r of word r, XOR-ed, is InvSubBytes then InvMixColumns. */
  lemma TdColumn(w0: bv32, w1: bv32, w2: bv32, w3: bv32)
    ensures Td0(Byte0(w0)) ^ Td1(Byte1(w1)) ^ Td2(Byte2(w2)) ^ Td3(Byte3(w3))
         == InvMixColumn(InvSbox(Byte0(w0)), InvSbox(Byte1(w1)), InvSbox(Byte2(w2)), InvSbox(Byte3(w3)))
  {
    var s0, s1, s2, s3 := InvSbox(Byte0(w0)), InvSbox(Byte1(w1)), InvSbox(Byte2(w2)), InvSbox(Byte3(w3));
    Xor4Congruence(Td0(Byte0(w0)), Td1(Byte1(w1)), Td2(Byte2(w2)), Td3(Byte3(w3)),
      Pack(Mul14(s0), Mul9(s0), Mul13(s0), Mul11(s0)), Pack(Mul11(s1), Mul14(s1), Mul9(s1), Mul13(s1)),
      Pack(Mul13(s2), Mul11(s2), Mul14(s2), Mul9(s2)), Pack(Mul9(s3), Mul13(s3), Mul11(s3), Mul14(s3)));
    TdColumnBytes(s0, s1, s2, s3);
  }

  /** The bytes of InvSubWord(w) are the inverse S-box of the bytes of w. */
  lemma InvSubWordBytes(w: bv32)
    ensures Byte0(InvSubWord(w)) == InvSbox(Byte0(w)) && Byte1(InvSubWord(w)) == InvSbox(Byte1(w))
    ensures Byte2(InvSubWord(w)) == InvSbox(Byte2(w)) && Byte3(InvSubWord(w)) == InvSbox(Byte3(w))
  {
    UnpackPack(InvSbox(Byte0(w)), InvSbox(Byte1(w)), InvSbox(Byte2(w)), InvSbox(Byte3(w)));
  }

  /**
   * One iteration half of rijndaelDecrypt's loop: Td0..Td3 along the
   * anti-diagonals of s0..s3, XOR-ed with k0..k3, is one round of the
   * equivalent inverse cipher.
   */
  lemma DecRound(s0: bv32, s1: bv32, s2: bv32, s3: bv32, k0: bv32, k1: bv32, k2: bv32, k3: bv32)
    ensures InvRound(State(s0, s1, s2, s3), State(k0, k1, k2, k3))
         == State(XorWord(Td0(Byte0(s0)) ^ Td1(Byte1(s3)) ^ Td2(Byte2(s2)) ^ Td3(Byte3(s1)), k0),
                  XorWord(Td0(Byte0(s1)) ^ Td1(Byte1(s0)) ^ Td2(Byte2(s3)) ^ Td3(Byte3(s2)), k1),
                  XorWord(Td0(Byte0(s2)) ^ Td1(Byte1(s1)) ^ Td2(Byte2(s0)) ^ Td3(Byte3(s3)), k2),
                  XorWord(Td0(Byte0(s3)) ^ Td1(Byte1(s2)) ^ Td2(Byte2(s1)) ^ Td3(Byte3(s0)), k3))
  {
    var ib := InvSubBytes(State(s0, s1, s2, s3));
    InvSubWordBytes(s0);
    InvSubWordBytes(s1);
    InvSubWordBytes(s2);
    InvSubWordBytes(s3);
    UnpackPack(Byte0(ib.c0), Byte1(ib.c3), Byte2(ib.c2), Byte3(ib.c1));
    UnpackPack(Byte0(ib.c1), Byte1(ib.c0), Byte2(ib.c3), Byte3(ib.c2));
    UnpackPack(Byte0(ib.c2), Byte1(ib.c1), Byte2(ib.c0), Byte3(ib.c3));
    UnpackPack(Byte0(ib.c3), Byte1(ib.c2), Byte2(ib.c1), Byte3(ib.c0));
    TdColumn(s0, s3, s2, s1);
    TdColumn(s1, s0, s3, s2);
    TdColumn(s2, s1, s0, s3);
    TdColumn(s3, s2, s1, s0);
  }

  /** The last decryption round shifts four Td4 bytes into place: that is packing them. */
  lemma TdFinalColumn(w0: bv32, w1: bv32, w2: bv32, w3: bv32)
    ensures (Td4(Byte0(w0)) as bv32 << 24) ^ (Td4(Byte1(w1)) as bv32 << 16)
          ^ (Td4(Byte2(w2)) as bv32 << 8) ^ (Td4(Byte3(w3)) as bv32)
         == Pack(Td4(Byte0(w0)), Td4(Byte1(w1)), Td4(Byte2(w2)), Td4(Byte3(w3)))
  {
  }

  /** The last-round computations of rijndaelDecrypt are the final round of the equivalent inverse cipher. */
  lemma DecFinalRound(t0: bv32, t1: bv32, t2: bv32, t3: bv32, k0: bv32, k1: bv32, k2: bv32, k3: bv32)
    ensures InvFinalRound(State(t0, t1, t2, t3), State(k0, k1, k2, k3))
         == State(XorWord((Td4(Byte0(t0)) as bv32 << 24) ^ (Td4(Byte1(t3)) as bv32 << 16)
                          ^ (Td4(Byte2(t2)) as bv32 << 8) ^ (Td4(Byte3(t1)) as bv32), k0),
                  XorWord((Td4(Byte0(t1)) as bv32 << 24) ^ (Td4(Byte1(t0)) as bv32 << 16)
                          ^ (Td4(Byte2(t3)) as bv32 << 8) ^ (Td4(Byte3(t2)) as bv32), k1),
                  XorWord((Td4(Byte0(t2)) as bv32 << 24) ^ (Td4(Byte1(t1)) as bv32 << 16)
                          ^ (Td4(Byte2(t0)) as bv32 << 8) ^ (Td4(Byte3(t3)) as bv32), k2),
                  XorWord((Td4(Byte0(t3)) as bv32 << 24) ^ (Td4(Byte1(t2)) as bv32 << 16)
                          ^ (Td4(Byte2(t1)) as bv32 << 8) ^ (Td4(Byte3(t0)) as bv32), k3))
  {
    InvSubWordBytes(t0);
    InvSubWordBytes(t1);
    InvSubWordBytes(t2);
    InvSubWordBytes(t3);
    TdFinalColumn(t0, t3, t2, t1);
    TdFinalColumn(t1, t0, t3, t2);
    TdFinalColumn(t2, t1, t0, t3);
    TdFinalColumn(t3, t2, t1, t0);
  }

  // ---------------------------------------------------------------------
  // Key schedule
  // ---------------------------------------------------------------------

  /**
   * The first word of each block of rijndaelKeySetupEnc: the S-box lanes of
   * Te2, Te3, Te0 and Te1 at the rotated bytes of temp, with rcon and the
   * word Nk back, is w[i - Nk] XOR (SubWord(RotWord(temp)) XOR Rcon).
   */
  lemma KeyWordRcon(a: bv32, temp: bv32, rc: bv32)
    ensures a ^ (Te2(Byte1(temp)) & 0xff000000) ^ (Te3(Byte2(temp)) & 0x00ff0000)
              ^ (Te0(Byte3(temp)) & 0x0000ff00) ^ (Te1(Byte0(temp)) & 0x000000ff) ^ rc
         == XorWord(a, XorWord(SubWord(RotWord(temp)), rc))
  {
    TeLanes(Byte1(temp), Byte2(temp), Byte3(temp), Byte0(temp));
    UnpackPack(Byte1(temp), Byte2(temp), Byte3(temp), Byte0(temp));
  }

  /** The middle word of a block for a 256-bit key: w[i - Nk] XOR SubWord(temp). */
  lemma KeyWordSub(a: bv32, temp: bv32)
    ensures a ^ (Te2(Byte0(temp)) & 0xff000000) ^ (Te3(Byte1(temp)) & 0x00ff0000)
              ^ (Te0(Byte2(temp)) & 0x0000ff00) ^ (Te1(Byte3(temp)) & 0x000000ff)
         == XorWord(a, SubWord(temp))
  {
    TeLanes(Byte0(temp), Byte1(temp), Byte2(temp), Byte3(temp));
  }

  /** Te1's low byte, the index rijndaelKeySetupDec passes to Td0..Td3, is the S-box output. */
  lemma Te1LowByte(x: bv8)
    ensures Byte3(Te1(x)) == Sbox(x)
  {
    Te1Lane(x);
  }

  /** Td0 of the S-box output of x: the InvMixColumns column scaled by x itself. */
  lemma Td0Te1(x: bv8)
    ensures Td0(Byte3(Te1(x))) == Pack(Mul14(x), Mul9(x), Mul13(x), Mul11(x))
  {
    Te1LowByte(x);
    InvSboxSbox(x);
  }

  lemma Td1Te1(x: bv8)
    ensures Td1(Byte3(Te1(x))) == Pack(Mul11(x), Mul14(x), Mul9(x), Mul13(x))
  {
    Te1LowByte(x);
    InvSboxSbox(x);
  }

  lemma Td2Te1(x: bv8)
    ensures Td2(Byte3(Te1(x))) == Pack(Mul13(x), Mul11(x), Mul14(x), Mul9(x))
  {
    Te1LowByte(x);
    InvSboxSbox(x);
  }

  lemma Td3Te1(x: bv8)
    ensures Td3(Byte3(Te1(x))) == Pack(Mul9(x), Mul13(x), Mul11(x), Mul14(x))
  {
    Te1LowByte(x);
    InvSboxSbox(x);
  }

  /** Td0..Td3 of the S-box outputs of four bytes, XOR-ed, are InvMixColumn of the bytes. */
  lemma TdTe1Column(a0: bv8, a1: bv8, a2: bv8, a3: bv8)
    ensures Td0(Byte3(Te1(a0))) ^ Td1(Byte3(Te1(a1))) ^ Td2(Byte3(Te1(a2))) ^ Td3(Byte3(Te1(a3)))
         == InvMixColumn(a0, a1, a2, a3)
  {
    Td0Te1(a0);
    Td1Te1(a1);
    Td2Te1(a2);
    Td3Te1(a3);
    Xor4Congruence(Td0(Byte3(Te1(a0))), Td1(Byte3(Te1(a1))), Td2(Byte3(Te1(a2))), Td3(Byte3(Te1(a3))),
      Pack(Mul14(a0), Mul9(a0), Mul13(a0), Mul11(a0)), Pack(Mul11(a1), Mul14(a1), Mul9(a1), Mul13(a1)),
      Pack(Mul13(a2), Mul11(a2), Mul14(a2), Mul9(a2)), Pack(Mul9(a3), Mul13(a3), Mul11(a3), Mul14(a3)));
    TdColumnBytes(a0, a1, a2, a3);
  }

  /**
   * rijndaelKeySetupDec's InvMixColumn of a round-key word: Td0..Td3 of the
   * S-box outputs undo the inverse S-box, leaving InvMixColumns alone.
   */
  lemma InvMixKey(w: bv32)
    ensures Td0(Byte3(Te1(Byte0(w)))) ^ Td1(Byte3(Te1(Byte1(w))))
          ^ Td2(Byte3(Te1(Byte2(w)))) ^ Td3(Byte3(Te1(Byte3(w))))
         == InvMixWord(w)
  {
    TdTe1Column(Byte0(w), Byte1(w), Byte2(w), Byte3(w));
  }
}
