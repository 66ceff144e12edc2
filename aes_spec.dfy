/**
 * AES as FIPS-197 defines it, written on 32-bit column words.
 *
 * The state is four columns; column c holds the bytes s[0][c] .. s[3][c],
 * row 0 in the most significant byte, which is how rijndael.c keeps it in
 * s0..s3 after GETU32.  Everything here is a definition of the standard;
 * the table-driven code of rijndael.c is proved equal to it in AesRounds,
 * AesSchedule and Rijndael.
 */
module AesSpec {
  import opened Bytes
  import opened AesTables

  /** The sum of two words: bitwise XOR (FIPS-197 section 4.1). */
  function XorWord(a: bv32, b: bv32): bv32 { a ^ b }

  // ---------------------------------------------------------------------
  // Key expansion (FIPS-197 section 5.2)
  // ---------------------------------------------------------------------

  /** SubWord: the S-box applied to each byte of a word. */
  function SubWord(w: bv32): bv32
  {
    Pack(Sbox(Byte0(w)), Sbox(Byte1(w)), Sbox(Byte2(w)), Sbox(Byte3(w)))
  }

  /** RotWord: [a0, a1, a2, a3] becomes [a1, a2, a3, a0]. */
  function RotWord(w: bv32): bv32
  {
    Pack(Byte1(w), Byte2(w), Byte3(w), Byte0(w))
  }

  /** The key sizes the standard defines, in bits. */
  predicate SupportedKeyBits(keyBits: int)
  {
    keyBits == 128 || keyBits == 192 || keyBits == 256
  }

  /** Nk: the key length in 32-bit words. */
  function KeyWords(keyBits: int): nat
  {
    if keyBits == 128 then 4 else if keyBits == 192 then 6 else 8
  }

  /** Nr: the number of rounds (Figure 4 of FIPS-197); 0 for an unsupported size. */
  function Rounds(keyBits: int): int
  {
    if keyBits == 128 then 10 else if keyBits == 192 then 12 else if keyBits == 256 then 14 else 0
  }

  /** The length of the expanded key, Nb * (Nr + 1) words. */
  function ScheduleWords(nr: int): int
  {
    4 * (nr + 1)
  }

  /** The valid (Nk, length) pairs: at most Nb * (Nk + 7) words, so that every Rcon index is in range. */
  predicate ExpansionArgs(key: seq<bv8>, nk: nat, n: nat)
  {
    (nk == 4 || nk == 6 || nk == 8) && |key| == 4 * nk && n <= 4 * (nk + 7)
  }

  /**
   * The word XOR-ed into w[i - Nk] to give w[i], computed from temp = w[i - 1]:
   * RotWord, SubWord and Rcon at the start of each key-length block, SubWord
   * alone half-way through a block of a 256-bit key, temp itself otherwise.
   */
  function KeyMix(nk: nat, i: nat, temp: bv32): bv32
    requires (nk == 4 || nk == 6 || nk == 8) && nk <= i < 4 * (nk + 7)
  {
    if i % nk == 0 then XorWord(SubWord(RotWord(temp)), Rcon[i / nk - 1])
    else if nk > 6 && i % nk == 4 then SubWord(temp)
    else temp
  }

  /**
   * Word i of the key schedule, given the words before it: the pseudo code
   * of FIPS-197 Figure 11.
   */
  function NextWord(key: seq<bv8>, nk: nat, prev: seq<bv32>): bv32
    requires ExpansionArgs(key, nk, |prev| + 1)
  {
    var i := |prev|;
    if i < nk then GetU32(key, 4 * i)
    else XorWord(prev[i - nk], KeyMix(nk, i, prev[i - 1]))
  }

  /**
   * The first n words of the key schedule w[0 .. n-1].  As with Rounds1To
   * below, the recursion runs through Expanded and ExpandedOf, so that an
   * unfolding of KeyExpansion stops two steps short of NextWord.
   */
  function KeyExpansion(key: seq<bv8>, nk: nat, n: nat): (w: seq<bv32>)
    requires ExpansionArgs(key, nk, n)
    ensures |w| == n
    decreases n, 2
  {
    if n == 0 then [] else Expanded(key, nk, n)
  }

  /** The first n >= 1 words of the key schedule. */
  function Expanded(key: seq<bv8>, nk: nat, n: nat): (w: seq<bv32>)
    requires ExpansionArgs(key, nk, n) && 1 <= n
    ensures |w| == n
    decreases n, 1
  {
    ExpandedOf(key, nk, n)
  }

  /** The first n - 1 words of the key schedule and NextWord after them. */
  function ExpandedOf(key: seq<bv8>, nk: nat, n: nat): (w: seq<bv32>)
    requires ExpansionArgs(key, nk, n) && 1 <= n
    ensures |w| == n
    decreases n, 0
  {
    var prev := KeyExpansion(key, nk, n - 1);
    prev + [NextWord(key, nk, prev)]
  }

  /** The first n words of a cipher key, big-endian as GETU32 reads them. */
  function KeyPrefix(key: seq<bv8>, n: nat): (w: seq<bv32>)
    requires 4 * n <= |key|
    ensures |w| == n && forall i :: 0 <= i < n ==> w[i] == GetU32(key, 4 * i)
  {
    seq(n, i requires 0 <= i < n => GetU32(key, 4 * i))
  }

  // ---------------------------------------------------------------------
  // The cipher (FIPS-197 section 5.1)
  // ---------------------------------------------------------------------

  /** The state: four column words. */
  datatype State = State(c0: bv32, c1: bv32, c2: bv32, c3: bv32)

  /** The input block as a state: column c is bytes 4c .. 4c+3, big-endian (section 3.4). */
  function Load(b: seq<bv8>): State
    requires |b| >= 16
  {
    State(GetU32(b, 0), GetU32(b, 4), GetU32(b, 8), GetU32(b, 12))
  }

  /** The state as an output block. */
  function Store(s: State): (b: seq<bv8>)
    ensures |b| == 16
  {
    PutU32(s.c0) + PutU32(s.c1) + PutU32(s.c2) + PutU32(s.c3)
  }

  function SubBytes(s: State): State
  {
    State(SubWord(s.c0), SubWord(s.c1), SubWord(s.c2), SubWord(s.c3))
  }

  /** Row r is rotated left by r: the new s[r][c] is the old s[r][(c + r) mod 4]. */
  function ShiftRows(s: State): State
  {
    State(Pack(Byte0(s.c0), Byte1(s.c1), Byte2(s.c2), Byte3(s.c3)),
          Pack(Byte0(s.c1), Byte1(s.c2), Byte2(s.c3), Byte3(s.c0)),
          Pack(Byte0(s.c2), Byte1(s.c3), Byte2(s.c0), Byte3(s.c1)),
          Pack(Byte0(s.c3), Byte1(s.c0), Byte2(s.c1), Byte3(s.c2)))
  }

  /** One column [a0, a1, a2, a3] times the MixColumns matrix, as in equation (5.6) of FIPS-197. */
  function MixColumn(a0: bv8, a1: bv8, a2: bv8, a3: bv8): bv32
  {
    Pack(XTime(a0) ^ Mul3(a1) ^ a2 ^ a3,
         a0 ^ XTime(a1) ^ Mul3(a2) ^ a3,
         a0 ^ a1 ^ XTime(a2) ^ Mul3(a3),
         Mul3(a0) ^ a1 ^ a2 ^ XTime(a3))
  }

  /** MixColumn applied to the bytes of a column word. */
  function MixWord(w: bv32): bv32
  {
    MixColumn(Byte0(w), Byte1(w), Byte2(w), Byte3(w))
  }

  function MixColumns(s: State): State
  {
    State(MixWord(s.c0), MixWord(s.c1), MixWord(s.c2), MixWord(s.c3))
  }

  /** Round key r: the words w[4r .. 4r+3] as a state. */
  function RoundKey(w: seq<bv32>, r: nat): State
    requires 4 * r + 4 <= |w|
  {
    State(w[4 * r], w[4 * r + 1], w[4 * r + 2], w[4 * r + 3])
  }

  /** AddRoundKey: the round key XOR-ed into the state, column by column. */
  function AddRoundKey(s: State, k: State): State
  {
    State(XorWord(s.c0, k.c0), XorWord(s.c1, k.c1), XorWord(s.c2, k.c2), XorWord(s.c3, k.c3))
  }

  /** Round r of the cipher, 1 <= r < Nr. */
  function Round(s: State, k: State): State
  {
    AddRoundKey(MixColumns(ShiftRows(SubBytes(s))), k)
  }

  /** The final round: no MixColumns. */
  function FinalRound(s: State, k: State): State
  {
    AddRoundKey(ShiftRows(SubBytes(s)), k)
  }

  /**
   * The state after rounds 1 .. k applied to s.  The recursion runs through
   * AfterRound and RoundOf, so that when a verification condition unfolds
   * Rounds1To it stops two steps short of Round: code that only carries the
   * state from one round to the next never sees the round's arithmetic.
   */
  function Rounds1To(s: State, w: seq<bv32>, k: nat): State
    requires 4 * k + 4 <= |w|
    decreases k, 2
  {
    if k == 0 then s else AfterRound(s, w, k)
  }

  /** The state after round k >= 1. */
  function AfterRound(s: State, w: seq<bv32>, k: nat): State
    requires 1 <= k && 4 * k + 4 <= |w|
    decreases k, 1
  {
    RoundOf(s, w, k)
  }

  /** Round k with round key k, applied to the state after the rounds before it. */
  function RoundOf(s: State, w: seq<bv32>, k: nat): State
    requires 1 <= k && 4 * k + 4 <= |w|
    decreases k, 0
  {
    Round(Rounds1To(s, w, k - 1), RoundKey(w, k))
  }

  /** Cipher() of FIPS-197 Figure 5 with nr rounds and expanded key w. */
  function Cipher(w: seq<bv32>, nr: nat, input: seq<bv8>): (output: seq<bv8>)
    requires 1 <= nr && 4 * nr + 4 <= |w| && |input| >= 16
    ensures |output| == 16
  {
    Store(FinalRound(Rounds1To(AddRoundKey(Load(input), RoundKey(w, 0)), w, nr - 1), RoundKey(w, nr)))
  }

  // ---------------------------------------------------------------------
  // The equivalent inverse cipher (FIPS-197 section 5.3.5)
  // ---------------------------------------------------------------------

  function InvSubWord(w: bv32): bv32
  {
    Pack(InvSbox(Byte0(w)), InvSbox(Byte1(w)), InvSbox(Byte2(w)), InvSbox(Byte3(w)))
  }

  function InvSubBytes(s: State): State
  {
    State(InvSubWord(s.c0), InvSubWord(s.c1), InvSubWord(s.c2), InvSubWord(s.c3))
  }

  /** Row r is rotated right by r: the new s[r][c] is the old s[r][(c - r) mod 4]. */
  function InvShiftRows(s: State): State
  {
    State(Pack(Byte0(s.c0), Byte1(s.c3), Byte2(s.c2), Byte3(s.c1)),
          Pack(Byte0(s.c1), Byte1(s.c0), Byte2(s.c3), Byte3(s.c2)),
          Pack(Byte0(s.c2), Byte1(s.c1), Byte2(s.c0), Byte3(s.c3)),
          Pack(Byte0(s.c3), Byte1(s.c2), Byte2(s.c1), Byte3(s.c0)))
  }

  /** One column times the InvMixColumns matrix, as in equation (5.10) of FIPS-197. */
  function InvMixColumn(a0: bv8, a1: bv8, a2: bv8, a3: bv8): bv32
  {
    Pack(Mul14(a0) ^ Mul11(a1) ^ Mul13(a2) ^ Mul9(a3),
         Mul9(a0) ^ Mul14(a1) ^ Mul11(a2) ^ Mul13(a3),
         Mul13(a0) ^ Mul9(a1) ^ Mul14(a2) ^ Mul11(a3),
         Mul11(a0) ^ Mul13(a1) ^ Mul9(a2) ^ Mul14(a3))
  }

  /** InvMixColumn applied to the bytes of a column word. */
  function InvMixWord(w: bv32): bv32
  {
    InvMixColumn(Byte0(w), Byte1(w), Byte2(w), Byte3(w))
  }

  function InvMixColumns(s: State): State
  {
    State(InvMixWord(s.c0), InvMixWord(s.c1), InvMixWord(s.c2), InvMixWord(s.c3))
  }

  /** Round r of the equivalent inverse cipher, with the decryption schedule dw. */
  function InvRound(s: State, k: State): State
  {
    AddRoundKey(InvMixColumns(InvShiftRows(InvSubBytes(s))), k)
  }

  function InvFinalRound(s: State, k: State): State
  {
    AddRoundKey(InvShiftRows(InvSubBytes(s)), k)
  }

  /** The state after rounds 1 .. k of the equivalent inverse cipher, recursing as Rounds1To does. */
  function InvRounds1To(s: State, dw: seq<bv32>, k: nat): State
    requires 4 * k + 4 <= |dw|
    decreases k, 2
  {
    if k == 0 then s else AfterInvRound(s, dw, k)
  }

  /** The state after inverse round k >= 1. */
  function AfterInvRound(s: State, dw: seq<bv32>, k: nat): State
    requires 1 <= k && 4 * k + 4 <= |dw|
    decreases k, 1
  {
    InvRoundOf(s, dw, k)
  }

  /** Inverse round k with round key k of dw, applied to the state after the rounds before it. */
  function InvRoundOf(s: State, dw: seq<bv32>, k: nat): State
    requires 1 <= k && 4 * k + 4 <= |dw|
    decreases k, 0
  {
    InvRound(InvRounds1To(s, dw, k - 1), RoundKey(dw, k))
  }

  /** EqInvCipher() of FIPS-197 Figure 15. */
  function EqInvCipher(dw: seq<bv32>, nr: nat, input: seq<bv8>): (output: seq<bv8>)
    requires 1 <= nr && 4 * nr + 4 <= |dw| && |input| >= 16
    ensures |output| == 16
  {
    Store(InvFinalRound(InvRounds1To(AddRoundKey(Load(input), RoundKey(dw, 0)), dw, nr - 1), RoundKey(dw, nr)))
  }

  /**
   * The decryption schedule of section 5.3.5: the round keys of w in reverse
   * order, with InvMixColumns applied to all but the first and the last.
   */
  function DecSchedule(w: seq<bv32>, nr: nat): (dw: seq<bv32>)
    requires 4 * nr + 4 <= |w|
    ensures |dw| == 4 * nr + 4
  {
    seq(4 * nr + 4, i requires 0 <= i < 4 * nr + 4 =>
      var g, c := i / 4, i % 4;
      var k := w[4 * (nr - g) + c];
      if g == 0 || g == nr then k else InvMixWord(k))
  }

  // ---------------------------------------------------------------------
  // AES under a cipher key
  // ---------------------------------------------------------------------

  /** The cipher-key lengths of AES-128, AES-192 and AES-256, in bytes. */
  predicate AesKey(key: seq<bv8>)
  {
    |key| == 16 || |key| == 24 || |key| == 32
  }

  /** Nr for a cipher key: Nk + 6. */
  function KeyRounds(key: seq<bv8>): nat
    requires AesKey(key)
  {
    |key| / 4 + 6
  }

  /** The expanded key w[0 .. 4 * Nr + 3] of a cipher key. */
  function KeySchedule(key: seq<bv8>): (w: seq<bv32>)
    requires AesKey(key)
    ensures |w| == 4 * KeyRounds(key) + 4
  {
    KeyExpansion(key, |key| / 4, 4 * KeyRounds(key) + 4)
  }

  /** AES encryption of one block under a cipher key. */
  function AesEncrypt(key: seq<bv8>, input: seq<bv8>): (output: seq<bv8>)
    requires AesKey(key) && |input| >= 16
    ensures |output| == 16
  {
    Cipher(KeySchedule(key), KeyRounds(key), input)
  }

  /** AES decryption of one block under a cipher key, by the equivalent inverse cipher. */
  function AesDecrypt(key: seq<bv8>, input: seq<bv8>): (output: seq<bv8>)
    requires AesKey(key) && |input| >= 16
    ensures |output| == 16
  {
    EqInvCipher(DecSchedule(KeySchedule(key), KeyRounds(key)), KeyRounds(key), input)
  }
}
