/**
 * rijndael.c: the key setup, the block functions and the context API.
 *
 * The round-key schedule is an `array<bv32>` (the caller's `uint32_t *rk`),
 * the blocks are `array<bv8>`, and the tables Te0..Te3, Td0..Td4 and rcon
 * are the functions and constant of AesTables.  Each method is proved
 * against AesSpec: the schedule it writes is KeyExpansion (or DecSchedule)
 * and the block it writes is Cipher (or EqInvCipher).
 */
module Rijndael {
  import opened Bytes
  import opened AesTables
  import opened AesSpec
  import opened AesRounds
  import opened AesSchedule
  import AesInverse

  /** The number of rounds rijndaelEncrypt and rijndaelDecrypt perform: twice Nr >> 1. */
  function PerformedRounds(nr: int): int
  {
    2 * (nr / 2)
  }

  /** PUTU32(dst + off, w): the four bytes of w, most significant first. */
  method StoreU32(dst: array<bv8>, off: nat, w: bv32)
    requires off + 4 <= dst.Length
    modifies dst
    ensures dst[..] == old(dst[..off]) + PutU32(w) + old(dst[off + 4..])
  {
    dst[off] := Byte0(w);
    dst[off + 1] := Byte1(w);
    dst[off + 2] := Byte2(w);
    dst[off + 3] := Byte3(w);
  }

  // ---------------------------------------------------------------------
  // Key setup
  // ---------------------------------------------------------------------

  /**
   * rk[n] := rk[n - Nk] ^ (the S-box lanes of the rotated rk[n - 1]) ^ rc:
   * the first word of each key-length block of the schedule.
   */
  method KeyWordWithRcon(rk: array<bv32>, n: nat, rc: bv32, ghost key: seq<bv8>, nk: nat, ghost q: nat)
    requires ExpansionArgs(key, nk, n + 1) && n < rk.Length
    requires n == nk * q && 1 <= q <= |Rcon| && rc == Rcon[q - 1]
    requires rk[..n] == KeyExpansion(key, nk, n)
    modifies rk
    ensures rk[..n + 1] == KeyExpansion(key, nk, n + 1)
    ensures forall j :: n < j < rk.Length ==> rk[j] == old(rk[j])
  {
    BlockPosition(nk, n, q, 0);
    var a, temp := rk[n - nk], rk[n - 1];
    rk[n] := a ^ (Te2(Byte1(temp)) & 0xff000000) ^ (Te3(Byte2(temp)) & 0x00ff0000)
           ^ (Te0(Byte3(temp)) & 0x0000ff00) ^ (Te1(Byte0(temp)) & 0x000000ff) ^ rc;
    RconWordStep(key, nk, n, q, a, temp, rc);
    assert rk[..n + 1] == old(rk[..n]) + [rk[n]];
  }

  /** rk[n] := rk[n - Nk] ^ rk[n - 1]: the words of a block after its first. */
  method KeyWordXor(rk: array<bv32>, n: nat, ghost key: seq<bv8>, nk: nat, ghost q: nat, ghost c: nat)
    requires ExpansionArgs(key, nk, n + 1) && n < rk.Length
    requires n == nk * q + c && 1 <= q && 0 < c < nk && !(nk > 6 && c == 4)
    requires rk[..n] == KeyExpansion(key, nk, n)
    modifies rk
    ensures rk[..n + 1] == KeyExpansion(key, nk, n + 1)
    ensures forall j :: n < j < rk.Length ==> rk[j] == old(rk[j])
  {
    BlockPosition(nk, n, q, c);
    var a, temp := rk[n - nk], rk[n - 1];
    rk[n] := a ^ temp;
    assert rk[n] == XorWord(a, temp);
    XorWordStep(key, nk, n, a, temp);
    assert rk[..n + 1] == old(rk[..n]) + [rk[n]];
  }

  /**
   * rk[n] := rk[n - 8] ^ (the S-box lanes of rk[n - 1]): the word half-way
   * through a block of a 256-bit key.
   */
  method KeyWordSubOnly(rk: array<bv32>, n: nat, ghost key: seq<bv8>, ghost q: nat)
    requires ExpansionArgs(key, 8, n + 1) && n < rk.Length && n == 8 * q + 4 && 1 <= q
    requires rk[..n] == KeyExpansion(key, 8, n)
    modifies rk
    ensures rk[..n + 1] == KeyExpansion(key, 8, n + 1)
    ensures forall j :: n < j < rk.Length ==> rk[j] == old(rk[j])
  {
    BlockPosition(8, n, q, 4);
    var a, temp := rk[n - 8], rk[n - 1];
    rk[n] := a ^ (Te2(Byte0(temp)) & 0xff000000) ^ (Te3(Byte1(temp)) & 0x00ff0000)
           ^ (Te0(Byte2(temp)) & 0x0000ff00) ^ (Te1(Byte3(temp)) & 0x000000ff);
    KeyWordSub(a, temp);
    ExpansionStep(key, 8, n);
    assert rk[..n + 1] == old(rk[..n]) + [rk[n]];
  }

  /** The first four words of block i + 1 of a 128-bit key's schedule, written at rk[b + 4 .. b + 7]. */
  method Block128(rk: array<bv32>, b: nat, i: nat, ghost key: seq<bv8>)
    requires |key| == 16 && b == 4 * i && i < 10 && b + 8 <= rk.Length
    requires rk[..b + 4] == KeyExpansion(key, 4, b + 4)
    modifies rk
    ensures rk[..b + 8] == KeyExpansion(key, 4, b + 8)
    ensures forall j :: b + 8 <= j < rk.Length ==> rk[j] == old(rk[j])
  {
    KeyWordWithRcon(rk, b + 4, Rcon[i], key, 4, i + 1);
    KeyWordXor(rk, b + 5, key, 4, i + 1, 1);
    KeyWordXor(rk, b + 6, key, 4, i + 1, 2);
    KeyWordXor(rk, b + 7, key, 4, i + 1, 3);
  }

  /** The first four words of block i + 1 of a 192-bit key's schedule, written at rk[b + 6 .. b + 9]. */
  method Block192Head(rk: array<bv32>, b: nat, i: nat, ghost key: seq<bv8>)
    requires |key| == 24 && b == 6 * i && i < 8 && b + 10 <= rk.Length
    requires rk[..b + 6] == KeyExpansion(key, 6, b + 6)
    modifies rk
    ensures rk[..b + 10] == KeyExpansion(key, 6, b + 10)
    ensures forall j :: b + 10 <= j < rk.Length ==> rk[j] == old(rk[j])
  {
    KeyWordWithRcon(rk, b + 6, Rcon[i], key, 6, i + 1);
    KeyWordXor(rk, b + 7, key, 6, i + 1, 1);
    KeyWordXor(rk, b + 8, key, 6, i + 1, 2);
    KeyWordXor(rk, b + 9, key, 6, i + 1, 3);
  }

  /** The last two words of block i + 1 of a 192-bit key's schedule, written at rk[b + 10 .. b + 11]. */
  method Block192Tail(rk: array<bv32>, b: nat, i: nat, ghost key: seq<bv8>)
    requires |key| == 24 && b == 6 * i && i < 7 && b + 12 <= rk.Length
    requires rk[..b + 10] == KeyExpansion(key, 6, b + 10)
    modifies rk
    ensures rk[..b + 12] == KeyExpansion(key, 6, b + 12)
    ensures forall j :: b + 12 <= j < rk.Length ==> rk[j] == old(rk[j])
  {
    KeyWordXor(rk, b + 10, key, 6, i + 1, 4);
    KeyWordXor(rk, b + 11, key, 6, i + 1, 5);
  }

  /** The first four words of block i + 1 of a 256-bit key's schedule, written at rk[b + 8 .. b + 11]. */
  method Block256Head(rk: array<bv32>, b: nat, i: nat, ghost key: seq<bv8>)
    requires |key| == 32 && b == 8 * i && i < 7 && b + 12 <= rk.Length
    requires rk[..b + 8] == KeyExpansion(key, 8, b + 8)
    modifies rk
    ensures rk[..b + 12] == KeyExpansion(key, 8, b + 12)
    ensures forall j :: b + 12 <= j < rk.Length ==> rk[j] == old(rk[j])
  {
    KeyWordWithRcon(rk, b + 8, Rcon[i], key, 8, i + 1);
    KeyWordXor(rk, b + 9, key, 8, i + 1, 1);
    KeyWordXor(rk, b + 10, key, 8, i + 1, 2);
    KeyWordXor(rk, b + 11, key, 8, i + 1, 3);
  }

  /** The last four words of block i + 1 of a 256-bit key's schedule, the first of them through the S-box. */
  method Block256Tail(rk: array<bv32>, b: nat, i: nat, ghost key: seq<bv8>)
    requires |key| == 32 && b == 8 * i && i < 6 && b + 16 <= rk.Length
    requires rk[..b + 12] == KeyExpansion(key, 8, b + 12)
    modifies rk
    ensures rk[..b + 16] == KeyExpansion(key, 8, b + 16)
    ensures forall j :: b + 16 <= j < rk.Length ==> rk[j] == old(rk[j])
  {
    KeyWordSubOnly(rk, b + 12, key, i + 1);
    KeyWordXor(rk, b + 13, key, 8, i + 1, 5);
    KeyWordXor(rk, b + 14, key, 8, i + 1, 6);
    KeyWordXor(rk, b + 15, key, 8, i + 1, 7);
  }

  /** The while (1) loop of rijndaelKeySetupEnc for a 128-bit key: ten blocks of four words. */
  method Expand128(rk: array<bv32>, ghost key: seq<bv8>)
    requires |key| == 16 && rk.Length >= 44
    requires rk[..4] == KeyExpansion(key, 4, 4)
    modifies rk
    ensures rk[..44] == KeyExpansion(key, 4, 44)
    ensures forall j :: 44 <= j < rk.Length ==> rk[j] == old(rk[j])
  {
    var i := 0;
    var b := 0;
    while true
      invariant 0 <= i < 10 && b == 4 * i
      invariant rk[..b + 4] == KeyExpansion(key, 4, b + 4)
      invariant forall j :: b + 4 <= j < rk.Length ==> rk[j] == old(rk[j])
      decreases 10 - i
    {
      Block128(rk, b, i, key);
      i := i + 1;
      if i == 10 {
        return;
      }
      b := b + 4;
    }
  }

  /** The while (1) loop of rijndaelKeySetupEnc for a 192-bit key: blocks of six words, the last one cut at four. */
  method Expand192(rk: array<bv32>, ghost key: seq<bv8>)
    requires |key| == 24 && rk.Length >= 52
    requires rk[..6] == KeyExpansion(key, 6, 6)
    modifies rk
    ensures rk[..52] == KeyExpansion(key, 6, 52)
    ensures forall j :: 52 <= j < rk.Length ==> rk[j] == old(rk[j])
  {
    var i := 0;
    var b := 0;
    while true
      invariant 0 <= i < 8 && b == 6 * i
      invariant rk[..b + 6] == KeyExpansion(key, 6, b + 6)
      invariant forall j :: b + 6 <= j < rk.Length ==> rk[j] == old(rk[j])
      decreases 8 - i
    {
      Block192Head(rk, b, i, key);
      i := i + 1;
      if i == 8 {
        return;
      }
      Block192Tail(rk, b, i - 1, key);
      b := b + 6;
    }
  }

  /** The while (1) loop of rijndaelKeySetupEnc for a 256-bit key: blocks of eight words, the last one cut at four. */
  method Expand256(rk: array<bv32>, ghost key: seq<bv8>)
    requires |key| == 32 && rk.Length >= 60
    requires rk[..8] == KeyExpansion(key, 8, 8)
    modifies rk
    ensures rk[..60] == KeyExpansion(key, 8, 60)
    ensures forall j :: 60 <= j < rk.Length ==> rk[j] == old(rk[j])
  {
    var i := 0;
    var b := 0;
    while true
      invariant 0 <= i < 7 && b == 8 * i
      invariant rk[..b + 8] == KeyExpansion(key, 8, b + 8)
      invariant forall j :: b + 8 <= j < rk.Length ==> rk[j] == old(rk[j])
      decreases 7 - i
    {
      Block256Head(rk, b, i, key);
      i := i + 1;
      if i == 7 {
        return;
      }
      Block256Tail(rk, b, i - 1, key);
      b := b + 8;
    }
  }

  /** rk[n] := GETU32(cipherKey + 4n): one word of the cipher key. */
  method LoadKeyWord(rk: array<bv32>, cipherKey: array<bv8>, n: nat)
    requires 4 * n + 4 <= cipherKey.Length && n < rk.Length
    requires rk[..n] == KeyPrefix(cipherKey[..], n)
    modifies rk
    ensures rk[..n + 1] == KeyPrefix(cipherKey[..], n + 1)
    ensures forall j :: n < j < rk.Length ==> rk[j] == old(rk[j])
  {
    rk[n] := GetU32(cipherKey[..], 4 * n);
    assert rk[..n + 1] == old(rk[..n]) + [rk[n]];
  }

  /**
   * The number of words of rk that rijndaelKeySetupEnc writes: the whole
   * schedule for a supported key size, the first eight key words otherwise.
   */
  function WordsWritten(keyBits: int): nat
  {
    if SupportedKeyBits(keyBits) then ScheduleWords(Rounds(keyBits)) else 8
  }

  /**
   * rijndaelKeySetupEnc: the key schedule of a 128-, 192- or 256-bit key,
   * and its number of rounds, 10, 12 or 14.  For any other size it returns
   * 0, having still loaded 32 key bytes into rk[0 .. 7].
   */
  method RijndaelKeySetupEnc(rk: array<bv32>, cipherKey: array<bv8>, keyBits: int) returns (nr: int)
    requires cipherKey.Length >= 4 * KeyWords(keyBits) && rk.Length >= WordsWritten(keyBits)
    modifies rk
    ensures nr == Rounds(keyBits)
    ensures SupportedKeyBits(keyBits) ==>
      rk[..ScheduleWords(nr)] == KeyExpansion(cipherKey[..4 * KeyWords(keyBits)], KeyWords(keyBits), ScheduleWords(nr))
    ensures !SupportedKeyBits(keyBits) ==> rk[..8] == KeyPrefix(cipherKey[..], 8)
    ensures forall j :: WordsWritten(keyBits) <= j < rk.Length ==> rk[j] == old(rk[j])
  {
    LoadKeyWord(rk, cipherKey, 0);
    LoadKeyWord(rk, cipherKey, 1);
    LoadKeyWord(rk, cipherKey, 2);
    LoadKeyWord(rk, cipherKey, 3);
    if keyBits == 128 {
      KeyExpansionStart(cipherKey[..], 4, 4);
      Expand128(rk, cipherKey[..16]);
      return 10;
    }
    LoadKeyWord(rk, cipherKey, 4);
    LoadKeyWord(rk, cipherKey, 5);
    if keyBits == 192 {
      KeyExpansionStart(cipherKey[..], 6, 6);
      Expand192(rk, cipherKey[..24]);
      return 12;
    }
    LoadKeyWord(rk, cipherKey, 6);
    LoadKeyWord(rk, cipherKey, 7);
    if keyBits == 256 {
      KeyExpansionStart(cipherKey[..], 8, 8);
      Expand256(rk, cipherKey[..32]);
      return 14;
    }
    return 0;
  }

  /** Where word x of the reversed schedule comes from: column x % 4 of round key Nr - x / 4. */
  function ReversedIndex(nr: nat, x: nat): nat
    requires x < 4 * nr + 4
  {
    4 * (nr - x / 4) + x % 4
  }

  /** Round keys g and Nr - g, the pair the swap loop exchanges g-th, map onto each other. */
  lemma ReversedPair(nr: nat, g: nat, x: nat)
    requires 2 * g <= nr && x < 4 * nr + 4
    ensures 4 * g <= x < 4 * g + 4 ==> ReversedIndex(nr, x) == x + (4 * nr - 8 * g)
    ensures 4 * (nr - g) <= x < 4 * (nr - g) + 4 ==> ReversedIndex(nr, x) == x - (4 * nr - 8 * g)
  {
  }

  /** w with round keys 0 .. g - 1 and Nr - g + 1 .. Nr already swapped. */
  ghost function PartlyReversed(w: seq<bv32>, nr: nat, g: nat): (v: seq<bv32>)
    requires 4 * nr + 4 <= |w| && 2 * g <= nr + 1
    ensures |v| == |w|
  {
    seq(|w|, x requires 0 <= x < |w| =>
      if x < 4 * g || 4 * (nr - g) + 4 <= x < 4 * nr + 4 then w[ReversedIndex(nr, x)] else w[x])
  }

  /** Once the swapped pairs meet in the middle, every round key is in its reversed place. */
  lemma PartlyReversedDone(w: seq<bv32>, nr: nat, g: nat)
    requires 4 * nr + 4 <= |w| && nr <= 2 * g <= nr + 1
    ensures forall x :: 0 <= x < 4 * nr + 4 ==> PartlyReversed(w, nr, g)[x] == w[ReversedIndex(nr, x)]
    ensures forall x :: 4 * nr + 4 <= x < |w| ==> PartlyReversed(w, nr, g)[x] == w[x]
  {
    forall x | 0 <= x < 4 * nr + 4 && 4 * g <= x < 4 * (nr - g) + 4
      ensures ReversedIndex(nr, x) == x
    {
      assert x / 4 == g;
    }
  }

  /** temp = rk[a]; rk[a] = rk[b]; rk[b] = temp. */
  method SwapWords(rk: array<bv32>, a: nat, b: nat)
    requires a < b < rk.Length
    modifies rk
    ensures rk[a] == old(rk[b]) && rk[b] == old(rk[a])
    ensures forall x :: 0 <= x < rk.Length && x != a && x != b ==> rk[x] == old(rk[x])
  {
    var temp := rk[a];
    rk[a] := rk[b];
    rk[b] := temp;
  }

  /** The body of the swap loop: the round keys at rk + i and rk + j trade places. */
  method SwapRoundKeys(rk: array<bv32>, i: nat, j: nat)
    requires i + 4 <= j && j + 4 <= rk.Length
    modifies rk
    ensures forall x :: i <= x < i + 4 ==> rk[x] == old(rk[x + (j - i)])
    ensures forall x :: j <= x < j + 4 ==> rk[x] == old(rk[x - (j - i)])
    ensures forall x :: 0 <= x < rk.Length && !(i <= x < i + 4) && !(j <= x < j + 4) ==> rk[x] == old(rk[x])
  {
    SwapWords(rk, i, j);
    SwapWords(rk, i + 1, j + 1);
    SwapWords(rk, i + 2, j + 2);
    SwapWords(rk, i + 3, j + 3);
  }

  /** One iteration of the swap loop, as a step from g swapped pairs to g + 1. */
  method ReverseStep(rk: array<bv32>, i: int, j: int, ghost w: seq<bv32>, ghost nr: nat, ghost g: nat)
    requires 4 * nr + 4 <= |w| && i == 4 * g && j == 4 * nr - i && i < j && j + 4 <= rk.Length
    requires rk[..] == PartlyReversed(w, nr, g)
    modifies rk
    ensures rk[..] == PartlyReversed(w, nr, g + 1)
  {
    SwapRoundKeys(rk, i, j);
    forall x | 0 <= x < 4 * nr + 4 {
      ReversedPair(nr, g, x);
    }
    forall x | 0 <= x < rk.Length ensures rk[x] == PartlyReversed(w, nr, g + 1)[x] {
      if j <= x < j + 4 {
        assert rk[x] == old(rk[x - (j - i)]);
      }
    }
  }

  /** The first loop of rijndaelKeySetupDec: the Nr + 1 round keys in reverse order. */
  method ReverseRoundKeys(rk: array<bv32>, nr: nat)
    requires 4 * nr + 4 <= rk.Length
    modifies rk
    ensures forall x :: 0 <= x < 4 * nr + 4 ==> rk[x] == old(rk[ReversedIndex(nr, x)])
    ensures forall x :: 4 * nr + 4 <= x < rk.Length ==> rk[x] == old(rk[x])
  {
    ghost var w := rk[..];
    var i: int, j: int := 0, 4 * nr;
    ghost var g := 0;
    while i < j
      invariant i == 4 * g && j == 4 * nr - i && i <= j + 4
      invariant rk[..] == PartlyReversed(w, nr, g)
      decreases j - i
    {
      ReverseStep(rk, i, j, w, nr, g);
      i, j, g := i + 4, j - 4, g + 1;
    }
    PartlyReversedDone(w, nr, g);
  }

  /** rk[n] := the Td0 .. Td3 lookups of the Te1 bytes of rk[n]: InvMixColumns of one key word. */
  method InvMixKeyWord(rk: array<bv32>, n: nat)
    requires n < rk.Length
    modifies rk
    ensures rk[n] == InvMixWord(old(rk[n]))
    ensures forall x :: 0 <= x < rk.Length && x != n ==> rk[x] == old(rk[x])
  {
    var w := rk[n];
    rk[n] := Td0(Byte3(Te1(Byte0(w)))) ^ Td1(Byte3(Te1(Byte1(w))))
           ^ Td2(Byte3(Te1(Byte2(w)))) ^ Td3(Byte3(Te1(Byte3(w))));
    InvMixKey(w);
  }

  /** w with InvMixColumns applied to the words 4 .. hi - 1. */
  ghost function InvMixedBelow(w: seq<bv32>, hi: nat): (v: seq<bv32>)
    ensures |v| == |w|
  {
    seq(|w|, x requires 0 <= x < |w| => if 4 <= x < hi then InvMixWord(w[x]) else w[x])
  }

  /** The body of the InvMixColumn loop: the four words of the round key at rk + p. */
  method InvMixRoundKey(rk: array<bv32>, p: nat, ghost w: seq<bv32>)
    requires 4 <= p && p + 4 <= rk.Length && rk[..] == InvMixedBelow(w, p)
    modifies rk
    ensures rk[..] == InvMixedBelow(w, p + 4)
  {
    InvMixKeyWord(rk, p);
    InvMixKeyWord(rk, p + 1);
    InvMixKeyWord(rk, p + 2);
    InvMixKeyWord(rk, p + 3);
    forall x | 0 <= x < rk.Length ensures rk[x] == InvMixedBelow(w, p + 4)[x] {
    }
  }

  /** The second loop of rijndaelKeySetupDec: InvMixColumns on round keys 1 .. Nr - 1. */
  method InvMixRoundKeys(rk: array<bv32>, nr: nat)
    requires 4 * nr + 4 <= rk.Length
    modifies rk
    ensures forall x :: 0 <= x < rk.Length ==>
      rk[x] == if 4 <= x < 4 * nr then InvMixWord(old(rk[x])) else old(rk[x])
  {
    ghost var w := rk[..];
    assert forall x :: 0 <= x < rk.Length ==> w[x] == rk[x];
    var i, p := 1, 0;
    while i < nr
      invariant 1 <= i && p == 4 * (i - 1) && (i <= nr || i == 1)
      invariant rk[..] == InvMixedBelow(w, p + 4)
    {
      p := p + 4;
      InvMixRoundKey(rk, p, w);
      i := i + 1;
    }
    assert 1 <= nr ==> p + 4 == 4 * nr;
    forall x | 0 <= x < rk.Length
      ensures rk[x] == if 4 <= x < 4 * nr then InvMixWord(old(rk[x])) else old(rk[x])
    {
      assert rk[x] == InvMixedBelow(w, p + 4)[x];
      assert w[x] == old(rk[x]);
    }
  }

  /** The two loops together give the decryption schedule of w. */
  lemma DecScheduleWords(w: seq<bv32>, nr: nat, dw: seq<bv32>)
    requires 4 * nr + 4 <= |w| && 4 * nr + 4 <= |dw|
    requires forall x :: 0 <= x < 4 * nr + 4 ==>
      dw[x] == if 4 <= x < 4 * nr then InvMixWord(w[ReversedIndex(nr, x)]) else w[ReversedIndex(nr, x)]
    ensures dw[..4 * nr + 4] == DecSchedule(w, nr)
  {
  }

  /**
   * rijndaelKeySetupDec: the decryption schedule of section 5.3.5 of
   * FIPS-197, built from the encryption schedule, and Nr.  For an
   * unsupported size both loops are empty and rk is as rijndaelKeySetupEnc
   * left it.
   */
  method RijndaelKeySetupDec(rk: array<bv32>, cipherKey: array<bv8>, keyBits: int) returns (nr: int)
    requires cipherKey.Length >= 4 * KeyWords(keyBits) && rk.Length >= WordsWritten(keyBits)
    modifies rk
    ensures nr == Rounds(keyBits)
    ensures SupportedKeyBits(keyBits) ==>
      rk[..ScheduleWords(nr)] == DecSchedule(KeyExpansion(cipherKey[..4 * KeyWords(keyBits)], KeyWords(keyBits), ScheduleWords(nr)), nr)
    ensures !SupportedKeyBits(keyBits) ==> rk[..8] == KeyPrefix(cipherKey[..], 8)
    ensures forall j :: WordsWritten(keyBits) <= j < rk.Length ==> rk[j] == old(rk[j])
  {
    nr := RijndaelKeySetupEnc(rk, cipherKey, keyBits);
    ghost var w := rk[..ScheduleWords(nr)];
    ReverseRoundKeys(rk, nr);
    InvMixRoundKeys(rk, nr);
    DecScheduleWords(w, nr, rk[..]);
  }

  /** The four PUTU32 calls that write a state to the first 16 bytes of a block. */
  method StoreBlock(ct: array<bv8>, s0: bv32, s1: bv32, s2: bv32, s3: bv32)
    requires ct.Length >= 16
    modifies ct
    ensures ct[..16] == Store(State(s0, s1, s2, s3))
    ensures ct[16..] == old(ct[16..])
  {
    ghost var o := ct[..];
    StoreU32(ct, 0, s0);
    assert ct[..] == PutU32(s0) + o[4..];
    ghost var p1 := PutU32(s0);
    SpliceNext(ct[..], p1, o[4..], PutU32(s1));
    StoreU32(ct, 4, s1);
    ghost var p2 := p1 + PutU32(s1);
    SpliceNext(ct[..], p2, o[8..], PutU32(s2));
    StoreU32(ct, 8, s2);
    ghost var p3 := p2 + PutU32(s2);
    SpliceNext(ct[..], p3, o[12..], PutU32(s3));
    StoreU32(ct, 12, s3);
    assert ct[..] == Store(State(s0, s1, s2, s3)) + o[16..];
  }

  /** A four-byte store just past a written prefix p extends the prefix. */
  lemma SpliceNext(d: seq<bv8>, p: seq<bv8>, o: seq<bv8>, x: seq<bv8>)
    requires d == p + o && |x| == 4 && |o| >= 4
    ensures d[..|p|] + x + d[|p| + 4..] == (p + x) + o[4..]
  {
    assert d[..|p|] == p;
    assert d[|p| + 4..] == o[4..];
  }

  /**
   * One half of an iteration of rijndaelEncrypt's loop: four T-table column
   * computations with the round-key words rk[k .. k+3], which make round j + 1.
   */
  method EncryptRound(rk: array<bv32>, k: nat, s0: bv32, s1: bv32, s2: bv32, s3: bv32,
                      ghost init: State, ghost j: nat)
    returns (t0: bv32, t1: bv32, t2: bv32, t3: bv32)
    requires k == 4 * j + 4 && k + 4 <= rk.Length
    requires State(s0, s1, s2, s3) == Rounds1To(init, rk[..], j)
    ensures State(t0, t1, t2, t3) == Rounds1To(init, rk[..], j + 1)
  {
    t0 := Te0(Byte0(s0)) ^ Te1(Byte1(s1)) ^ Te2(Byte2(s2)) ^ Te3(Byte3(s3)) ^ rk[k];
    t1 := Te0(Byte0(s1)) ^ Te1(Byte1(s2)) ^ Te2(Byte2(s3)) ^ Te3(Byte3(s0)) ^ rk[k + 1];
    t2 := Te0(Byte0(s2)) ^ Te1(Byte1(s3)) ^ Te2(Byte2(s0)) ^ Te3(Byte3(s1)) ^ rk[k + 2];
    t3 := Te0(Byte0(s3)) ^ Te1(Byte1(s0)) ^ Te2(Byte2(s1)) ^ Te3(Byte3(s2)) ^ rk[k + 3];
    EncRound(s0, s1, s2, s3, rk[k], rk[k + 1], rk[k + 2], rk[k + 3]);
    assert RoundKey(rk[..], j + 1) == State(rk[k], rk[k + 1], rk[k + 2], rk[k + 3]);
    assert Rounds1To(init, rk[..], j + 1) == AfterRound(init, rk[..], j + 1) == RoundOf(init, rk[..], j + 1);
  }

  /** The four columns of rijndaelEncrypt's last round: the S-box lanes of Te2, Te3, Te0, Te1 and rk[k .. k+3]. */
  method FinalColumns(rk: array<bv32>, k: nat, t0: bv32, t1: bv32, t2: bv32, t3: bv32)
    returns (s0: bv32, s1: bv32, s2: bv32, s3: bv32)
    requires k + 4 <= rk.Length
    ensures State(s0, s1, s2, s3) == FinalRound(State(t0, t1, t2, t3), State(rk[k], rk[k + 1], rk[k + 2], rk[k + 3]))
  {
    s0 := (Te2(Byte0(t0)) & 0xff000000) ^ (Te3(Byte1(t1)) & 0x00ff0000)
        ^ (Te0(Byte2(t2)) & 0x0000ff00) ^ (Te1(Byte3(t3)) & 0x000000ff) ^ rk[k];
    s1 := (Te2(Byte0(t1)) & 0xff000000) ^ (Te3(Byte1(t2)) & 0x00ff0000)
        ^ (Te0(Byte2(t3)) & 0x0000ff00) ^ (Te1(Byte3(t0)) & 0x000000ff) ^ rk[k + 1];
    s2 := (Te2(Byte0(t2)) & 0xff000000) ^ (Te3(Byte1(t3)) & 0x00ff0000)
        ^ (Te0(Byte2(t0)) & 0x0000ff00) ^ (Te1(Byte3(t1)) & 0x000000ff) ^ rk[k + 2];
    s3 := (Te2(Byte0(t3)) & 0xff000000) ^ (Te3(Byte1(t0)) & 0x00ff0000)
        ^ (Te0(Byte2(t1)) & 0x0000ff00) ^ (Te1(Byte3(t2)) & 0x000000ff) ^ rk[k + 3];
    EncFinalRound(t0, t1, t2, t3, rk[k], rk[k + 1], rk[k + 2], rk[k + 3]);
  }

  /**
   * rijndaelEncrypt's last round: the S-box lanes of Te2, Te3, Te0, Te1 and
   * rk[k .. k+3], which make round j + 1, written to ct with PUTU32.
   */
  method EncryptFinalRound(rk: array<bv32>, k: nat, t0: bv32, t1: bv32, t2: bv32, t3: bv32, ct: array<bv8>,
                           ghost w: seq<bv32>, ghost input: seq<bv8>, ghost n: nat)
    requires 1 <= n && k == 4 * n && k + 4 <= rk.Length && rk[..] == w
    requires ct.Length >= 16 && |input| >= 16
    requires State(t0, t1, t2, t3) == Rounds1To(AddRoundKey(Load(input), RoundKey(w, 0)), w, n - 1)
    modifies ct
    ensures ct[..16] == Cipher(w, n, input)
    ensures ct[16..] == old(ct[16..])
  {
    var s0, s1, s2, s3 := FinalColumns(rk, k, t0, t1, t2, t3);
    assert RoundKey(w, n) == State(rk[k], rk[k + 1], rk[k + 2], rk[k + 3]);
    assert Store(State(s0, s1, s2, s3)) == Cipher(w, n, input);
    StoreBlock(ct, s0, s1, s2, s3);
  }


  /** GETU32 of each column of the block XOR-ed with rk[0 .. 3]: the initial AddRoundKey. */
  method AddFirstRoundKey(rk: array<bv32>, blk: array<bv8>) returns (s0: bv32, s1: bv32, s2: bv32, s3: bv32)
    requires 4 <= rk.Length && 16 <= blk.Length
    ensures State(s0, s1, s2, s3) == AddRoundKey(Load(blk[..16]), State(rk[0], rk[1], rk[2], rk[3]))
  {
    s0 := GetU32(blk[..], 0) ^ rk[0];
    s1 := GetU32(blk[..], 4) ^ rk[1];
    s2 := GetU32(blk[..], 8) ^ rk[2];
    s3 := GetU32(blk[..], 12) ^ rk[3];
    assert s0 == XorWord(GetU32(blk[..], 0), rk[0]);
    assert s1 == XorWord(GetU32(blk[..], 4), rk[1]);
    assert s2 == XorWord(GetU32(blk[..], 8), rk[2]);
    assert s3 == XorWord(GetU32(blk[..], 12), rk[3]);
  }

  /**
   * The round loop of rijndaelEncrypt: Nr >> 1 passes of two rounds, the
   * last pass stopping before the final round, as the C loop breaks.
   */
  method EncryptLoop(rk: array<bv32>, nr: int, s0: bv32, s1: bv32, s2: bv32, s3: bv32, ghost w: seq<bv32>)
    returns (b: nat, t0: bv32, t1: bv32, t2: bv32, t3: bv32)
    requires 2 <= nr && 4 * PerformedRounds(nr) + 4 <= rk.Length && rk[..] == w
    ensures 2 <= PerformedRounds(nr) && b == 4 * PerformedRounds(nr)
    ensures State(t0, t1, t2, t3) == Rounds1To(State(s0, s1, s2, s3), w, PerformedRounds(nr) - 1)
  {
    ghost var init := State(s0, s1, s2, s3);
    var u0, u1, u2, u3 := s0, s1, s2, s3;
    var r := nr / 2;
    b := 0;
    ghost var d := 0;
    while true
      invariant 1 <= r <= nr / 2 && d == 2 * (nr / 2 - r) && b == 4 * d
      invariant State(u0, u1, u2, u3) == Rounds1To(init, w, d)
      decreases r
    {
      t0, t1, t2, t3 := EncryptRound(rk, b + 4, u0, u1, u2, u3, init, d);
      b, d := b + 8, d + 2;
      r := r - 1;
      if r == 0 {
        break;
      }
      u0, u1, u2, u3 := EncryptRound(rk, b, t0, t1, t2, t3, init, d - 1);
    }
  }


  /** A block the cipher computes under w is the one it computes under the prefix v of w it reads. */
  lemma CipherOnPrefix(x: seq<bv8>, w: seq<bv32>, v: seq<bv32>, d: nat, input: seq<bv8>)
    requires 1 <= d && 4 * d + 4 <= |w| && |input| >= 16 && v == w[..4 * d + 4] && x == Cipher(w, d, input)
    ensures x == Cipher(v, d, input)
  {
    CipherPrefix(w, d, input);
  }

  /**
   * rijndaelEncrypt: the initial AddRoundKey, Nr - 1 table-driven rounds two
   * at a time, and the last round, on the block pt; the result goes to ct,
   * which may be pt itself.
   */
  method RijndaelEncrypt(rk: array<bv32>, nr: int, pt: array<bv8>, ct: array<bv8>)
    requires 2 <= nr && 4 * PerformedRounds(nr) + 4 <= rk.Length
    requires pt.Length >= 16 && ct.Length >= 16
    modifies ct
    ensures ct[..16] == Cipher(rk[..4 * PerformedRounds(nr) + 4], PerformedRounds(nr), old(pt[..16]))
    ensures ct[16..] == old(ct[16..])
  {
    ghost var w, input := rk[..], pt[..16];
    var s0, s1, s2, s3 := AddFirstRoundKey(rk, pt);
    assert State(s0, s1, s2, s3) == AddRoundKey(Load(input), RoundKey(w, 0));
    var b, t0, t1, t2, t3 := EncryptLoop(rk, nr, s0, s1, s2, s3, w);
    ghost var d := PerformedRounds(nr);
    EncryptFinalRound(rk, b, t0, t1, t2, t3, ct, w, input, d);
    CipherOnPrefix(ct[..16], w, rk[..4 * d + 4], d, input);
  }


  /**
   * One half of an iteration of rijndaelDecrypt's loop: Td0..Td3 along the
   * anti-diagonals with the round-key words rk[k .. k+3], which make inverse
   * round j + 1.
   */
  method DecryptRound(rk: array<bv32>, k: nat, s0: bv32, s1: bv32, s2: bv32, s3: bv32,
                      ghost init: State, ghost j: nat)
    returns (t0: bv32, t1: bv32, t2: bv32, t3: bv32)
    requires k == 4 * j + 4 && k + 4 <= rk.Length
    requires State(s0, s1, s2, s3) == InvRounds1To(init, rk[..], j)
    ensures State(t0, t1, t2, t3) == InvRounds1To(init, rk[..], j + 1)
  {
    t0 := Td0(Byte0(s0)) ^ Td1(Byte1(s3)) ^ Td2(Byte2(s2)) ^ Td3(Byte3(s1)) ^ rk[k];
    t1 := Td0(Byte0(s1)) ^ Td1(Byte1(s0)) ^ Td2(Byte2(s3)) ^ Td3(Byte3(s2)) ^ rk[k + 1];
    t2 := Td0(Byte0(s2)) ^ Td1(Byte1(s1)) ^ Td2(Byte2(s0)) ^ Td3(Byte3(s3)) ^ rk[k + 2];
    t3 := Td0(Byte0(s3)) ^ Td1(Byte1(s2)) ^ Td2(Byte2(s1)) ^ Td3(Byte3(s0)) ^ rk[k + 3];
    DecRound(s0, s1, s2, s3, rk[k], rk[k + 1], rk[k + 2], rk[k + 3]);
    assert RoundKey(rk[..], j + 1) == State(rk[k], rk[k + 1], rk[k + 2], rk[k + 3]);
    assert InvRounds1To(init, rk[..], j + 1) == AfterInvRound(init, rk[..], j + 1) == InvRoundOf(init, rk[..], j + 1);
  }

  /** The four columns of rijndaelDecrypt's last round: Td4 bytes shifted into place and rk[k .. k+3]. */
  method InvFinalColumns(rk: array<bv32>, k: nat, t0: bv32, t1: bv32, t2: bv32, t3: bv32)
    returns (s0: bv32, s1: bv32, s2: bv32, s3: bv32)
    requires k + 4 <= rk.Length
    ensures State(s0, s1, s2, s3) == InvFinalRound(State(t0, t1, t2, t3), State(rk[k], rk[k + 1], rk[k + 2], rk[k + 3]))
  {
    s0 := (Td4(Byte0(t0)) as bv32 << 24) ^ (Td4(Byte1(t3)) as bv32 << 16)
        ^ (Td4(Byte2(t2)) as bv32 << 8) ^ (Td4(Byte3(t1)) as bv32) ^ rk[k];
    s1 := (Td4(Byte0(t1)) as bv32 << 24) ^ (Td4(Byte1(t0)) as bv32 << 16)
        ^ (Td4(Byte2(t3)) as bv32 << 8) ^ (Td4(Byte3(t2)) as bv32) ^ rk[k + 1];
    s2 := (Td4(Byte0(t2)) as bv32 << 24) ^ (Td4(Byte1(t1)) as bv32 << 16)
        ^ (Td4(Byte2(t0)) as bv32 << 8) ^ (Td4(Byte3(t3)) as bv32) ^ rk[k + 2];
    s3 := (Td4(Byte0(t3)) as bv32 << 24) ^ (Td4(Byte1(t2)) as bv32 << 16)
        ^ (Td4(Byte2(t1)) as bv32 << 8) ^ (Td4(Byte3(t0)) as bv32) ^ rk[k + 3];
    DecFinalRound(t0, t1, t2, t3, rk[k], rk[k + 1], rk[k + 2], rk[k + 3]);
  }

  /** rijndaelDecrypt's last round, written to pt with PUTU32: it completes EqInvCipher. */
  method DecryptFinalRound(rk: array<bv32>, k: nat, t0: bv32, t1: bv32, t2: bv32, t3: bv32, pt: array<bv8>,
                           ghost w: seq<bv32>, ghost input: seq<bv8>, ghost n: nat)
    requires 1 <= n && k == 4 * n && k + 4 <= rk.Length && rk[..] == w
    requires pt.Length >= 16 && |input| >= 16
    requires State(t0, t1, t2, t3) == InvRounds1To(AddRoundKey(Load(input), RoundKey(w, 0)), w, n - 1)
    modifies pt
    ensures pt[..16] == EqInvCipher(w, n, input)
    ensures pt[16..] == old(pt[16..])
  {
    var s0, s1, s2, s3 := InvFinalColumns(rk, k, t0, t1, t2, t3);
    assert RoundKey(w, n) == State(rk[k], rk[k + 1], rk[k + 2], rk[k + 3]);
    assert Store(State(s0, s1, s2, s3)) == EqInvCipher(w, n, input);
    StoreBlock(pt, s0, s1, s2, s3);
  }


  /**
   * The round loop of rijndaelDecrypt: Nr >> 1 passes of two rounds, the
   * last pass stopping before the final round, as the C loop breaks.
   */
  method DecryptLoop(rk: array<bv32>, nr: int, s0: bv32, s1: bv32, s2: bv32, s3: bv32, ghost w: seq<bv32>)
    returns (b: nat, t0: bv32, t1: bv32, t2: bv32, t3: bv32)
    requires 2 <= nr && 4 * PerformedRounds(nr) + 4 <= rk.Length && rk[..] == w
    ensures 2 <= PerformedRounds(nr) && b == 4 * PerformedRounds(nr)
    ensures State(t0, t1, t2, t3) == InvRounds1To(State(s0, s1, s2, s3), w, PerformedRounds(nr) - 1)
  {
    ghost var init := State(s0, s1, s2, s3);
    var u0, u1, u2, u3 := s0, s1, s2, s3;
    var r := nr / 2;
    b := 0;
    ghost var d := 0;
    while true
      invariant 1 <= r <= nr / 2 && d == 2 * (nr / 2 - r) && b == 4 * d
      invariant State(u0, u1, u2, u3) == InvRounds1To(init, w, d)
      decreases r
    {
      t0, t1, t2, t3 := DecryptRound(rk, b + 4, u0, u1, u2, u3, init, d);
      b, d := b + 8, d + 2;
      r := r - 1;
      if r == 0 {
        break;
      }
      u0, u1, u2, u3 := DecryptRound(rk, b, t0, t1, t2, t3, init, d - 1);
    }
  }


  /** A block the equivalent inverse cipher computes under w is the one it computes under the prefix v of w it reads. */
  lemma EqInvCipherOnPrefix(x: seq<bv8>, w: seq<bv32>, v: seq<bv32>, d: nat, input: seq<bv8>)
    requires 1 <= d && 4 * d + 4 <= |w| && |input| >= 16 && v == w[..4 * d + 4] && x == EqInvCipher(w, d, input)
    ensures x == EqInvCipher(v, d, input)
  {
    EqInvCipherPrefix(w, d, input);
  }

  /**
   * rijndaelDecrypt: the equivalent inverse cipher with the decryption
   * schedule rk, on the block ct; the result goes to pt, which may be ct itself.
   */
  method RijndaelDecrypt(rk: array<bv32>, nr: int, ct: array<bv8>, pt: array<bv8>)
    requires 2 <= nr && 4 * PerformedRounds(nr) + 4 <= rk.Length
    requires ct.Length >= 16 && pt.Length >= 16
    modifies pt
    ensures pt[..16] == EqInvCipher(rk[..4 * PerformedRounds(nr) + 4], PerformedRounds(nr), old(ct[..16]))
    ensures pt[16..] == old(pt[16..])
  {
    ghost var w, input := rk[..], ct[..16];
    var s0, s1, s2, s3 := AddFirstRoundKey(rk, ct);
    assert State(s0, s1, s2, s3) == AddRoundKey(Load(input), RoundKey(w, 0));
    var b, t0, t1, t2, t3 := DecryptLoop(rk, nr, s0, s1, s2, s3, w);
    ghost var d := PerformedRounds(nr);
    DecryptFinalRound(rk, b, t0, t1, t2, t3, pt, w, input, d);
    EqInvCipherOnPrefix(pt[..16], w, rk[..4 * d + 4], d, input);
  }


  // ---------------------------------------------------------------------
  // The context API
  // ---------------------------------------------------------------------

  /** AES_MAXROUNDS. */
  const MaxRounds := 14

  /** Nr >> 1 twice over is Nr for the even round counts of AES. */
  lemma PerformedAllRounds(nr: int)
    requires nr == 10 || nr == 12 || nr == 14
    ensures PerformedRounds(nr) == nr
  {
  }

  /**
   * rijndael_ctx: the two schedules are arrays of the struct, so they are
   * fixed arrays of 4 * (AES_MAXROUNDS + 1) words, distinct from each other.
   * The ghost field key records the cipher key of the last successful
   * setup, so that the block functions can be stated as AES under it.
   */
  class Context {
    var encOnly: int
    var nr: int
    const ek: array<bv32>
    const dk: array<bv32>
    ghost var key: seq<bv8>

    ghost predicate Valid()
      reads this
    {
      ek.Length == 4 * (MaxRounds + 1) && dk.Length == 4 * (MaxRounds + 1) && ek != dk
    }

    /**
     * The context holds the schedules of key: ek always, dk unless the
     * setup was for encryption only.
     */
    ghost predicate HoldsKey()
      reads this, ek, dk
    {
      Valid() && AesKey(key) && nr == KeyRounds(key)
      && (encOnly == 0 || encOnly == 1)
      && ek[..4 * nr + 4] == KeySchedule(key)
      && (encOnly == 0 ==> dk[..4 * nr + 4] == DecSchedule(KeySchedule(key), nr))
    }

    /** A context as declared: its schedules are allocated, their contents are not yet a key's. */
    constructor ()
      ensures Valid() && fresh(ek) && fresh(dk)
    {
      ek := new bv32[4 * (MaxRounds + 1)];
      dk := new bv32[4 * (MaxRounds + 1)];
    }

    /**
     * rijndael_set_key_enc_only: the encryption schedule of a 128-, 192- or
     * 256-bit key, Nr, and enc_only = 1; -1 for any other size, leaving Nr
     * and enc_only as they were (ek is still overwritten).
     */
    method SetKeyEncOnly(cipherKey: array<bv8>, bits: int) returns (r: int)
      requires Valid() && cipherKey.Length >= 4 * KeyWords(bits)
      modifies this, ek
      ensures Valid()
      ensures r == (if SupportedKeyBits(bits) then 0 else -1)
      ensures SupportedKeyBits(bits) ==>
        HoldsKey() && key == cipherKey[..4 * KeyWords(bits)] && nr == Rounds(bits) && encOnly == 1
      ensures !SupportedKeyBits(bits) ==>
        nr == old(nr) && encOnly == old(encOnly) && key == old(key)
        && ek[..8] == KeyPrefix(cipherKey[..], 8) && ek[8..] == old(ek[8..])
    {
      var rounds := RijndaelKeySetupEnc(ek, cipherKey, bits);
      if rounds == 0 {
        return -1;
      }
      nr := rounds;
      encOnly := 1;
      key := cipherKey[..4 * KeyWords(bits)];
      return 0;
    }

    /**
     * rijndael_set_key: both schedules, Nr and enc_only = 0; -1 for an
     * unsupported size, leaving Nr and enc_only as they were.  The second
     * check of the source, that the decryption setup agrees on Nr, never
     * fails: both setups return Rounds(bits).
     */
    method SetKey(cipherKey: array<bv8>, bits: int) returns (r: int)
      requires Valid() && cipherKey.Length >= 4 * KeyWords(bits)
      modifies this, ek, dk
      ensures Valid()
      ensures r == (if SupportedKeyBits(bits) then 0 else -1)
      ensures SupportedKeyBits(bits) ==>
        HoldsKey() && key == cipherKey[..4 * KeyWords(bits)] && nr == Rounds(bits) && encOnly == 0
      ensures !SupportedKeyBits(bits) ==>
        nr == old(nr) && encOnly == old(encOnly) && key == old(key)
        && ek[..8] == KeyPrefix(cipherKey[..], 8) && ek[8..] == old(ek[8..]) && dk[..] == old(dk[..])
    {
      var rounds := RijndaelKeySetupEnc(ek, cipherKey, bits);
      if rounds == 0 {
        return -1;
      }
      var decRounds := RijndaelKeySetupDec(dk, cipherKey, bits);
      if decRounds != rounds {
        return -1;
      }
      nr := rounds;
      encOnly := 0;
      key := cipherKey[..4 * KeyWords(bits)];
      return 0;
    }

    /** rijndael_encrypt: AES encryption of src under the context's key into dst. */
    method Encrypt(src: array<bv8>, dst: array<bv8>)
      requires HoldsKey() && src.Length >= 16 && dst.Length >= 16
      modifies dst
      ensures dst[..16] == AesEncrypt(key, old(src[..16]))
      ensures dst[16..] == old(dst[16..])
    {
      PerformedAllRounds(nr);
      RijndaelEncrypt(ek, nr, src, dst);
    }

    /** rijndael_decrypt: AES decryption of src under the context's key into dst, from dk. */
    method Decrypt(src: array<bv8>, dst: array<bv8>)
      requires HoldsKey() && encOnly == 0 && src.Length >= 16 && dst.Length >= 16
      modifies dst
      ensures dst[..16] == AesDecrypt(key, old(src[..16]))
      ensures dst[16..] == old(dst[16..])
      ensures forall p :: |p| >= 16 && old(src[..16]) == AesEncrypt(key, p) ==> dst[..16] == p[..16]
    {
      PerformedAllRounds(nr);
      RijndaelDecrypt(dk, nr, src, dst);
      forall p | |p| >= 16 && old(src[..16]) == AesEncrypt(key, p)
        ensures dst[..16] == p[..16]
      {
        AesInverse.AesDecryptEncrypt(key, p);
      }
    }
  }
}
