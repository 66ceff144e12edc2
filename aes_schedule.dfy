/**
 * Facts about the key schedules of AesSpec that rijndaelKeySetupEnc and
 * rijndaelKeySetupDec rely on.
 */
module AesSchedule {
  import opened Bytes
  import opened AesTables
  import opened AesSpec
  import opened AesRounds

  /** The first Nk words of the schedule are the cipher key itself. */
  lemma {:induction false} KeyExpansionStart(key: seq<bv8>, nk: nat, n: nat)
    requires (nk == 4 || nk == 6 || nk == 8) && 4 * nk <= |key| && n <= nk
    ensures KeyExpansion(key[..4 * nk], nk, n) == KeyPrefix(key, n)
  {
    if n > 0 {
      var k := key[..4 * nk];
      KeyExpansionStart(key, nk, n - 1);
      assert KeyExpansion(k, nk, n) == Expanded(k, nk, n) == ExpandedOf(k, nk, n);
      assert GetU32(k, 4 * (n - 1)) == GetU32(key, 4 * (n - 1));
    }
  }

  /** Each word of the schedule is NextWord of the words before it. */
  lemma ExpansionStep(key: seq<bv8>, nk: nat, n: nat)
    requires ExpansionArgs(key, nk, n + 1)
    ensures KeyExpansion(key, nk, n + 1) == KeyExpansion(key, nk, n) + [NextWord(key, nk, KeyExpansion(key, nk, n))]
  {
    assert KeyExpansion(key, nk, n + 1) == Expanded(key, nk, n + 1) == ExpandedOf(key, nk, n + 1);
  }

  /**
   * The first word of a key-length block as rijndaelKeySetupEnc computes it,
   * from a = w[n - Nk] and temp = w[n - 1]: S-box lanes of Te2, Te3, Te0, Te1 and rc.
   */
  lemma RconWordStep(key: seq<bv8>, nk: nat, n: nat, q: nat, a: bv32, temp: bv32, rc: bv32)
    requires ExpansionArgs(key, nk, n + 1) && n == nk * q && 1 <= q <= |Rcon| && rc == Rcon[q - 1]
    requires a == KeyExpansion(key, nk, n)[n - nk] && temp == KeyExpansion(key, nk, n)[n - 1]
    ensures KeyExpansion(key, nk, n + 1)
         == KeyExpansion(key, nk, n)
          + [a ^ (Te2(Byte1(temp)) & 0xff000000) ^ (Te3(Byte2(temp)) & 0x00ff0000)
               ^ (Te0(Byte3(temp)) & 0x0000ff00) ^ (Te1(Byte0(temp)) & 0x000000ff) ^ rc]
  {
    RconNext(key, nk, n, q, a, temp, rc);
    KeyWordRcon(a, temp, rc);
  }

  /** The first word of a key-length block: w[n - Nk] XOR SubWord(RotWord(temp)) XOR rc. */
  lemma RconNext(key: seq<bv8>, nk: nat, n: nat, q: nat, a: bv32, temp: bv32, rc: bv32)
    requires ExpansionArgs(key, nk, n + 1) && n == nk * q && 1 <= q <= |Rcon| && rc == Rcon[q - 1]
    requires a == KeyExpansion(key, nk, n)[n - nk] && temp == KeyExpansion(key, nk, n)[n - 1]
    ensures KeyExpansion(key, nk, n + 1) == KeyExpansion(key, nk, n) + [XorWord(a, XorWord(SubWord(RotWord(temp)), rc))]
  {
    MixFirst(nk, n, q, temp);
    ExpansionStep(key, nk, n);
  }

  /** KeyMix at the first word of block q >= 1: the rotated, substituted word XOR Rcon[q - 1]. */
  lemma MixFirst(nk: nat, n: nat, q: nat, temp: bv32)
    requires (nk == 4 || nk == 6 || nk == 8) && n < 4 * (nk + 7) && n == nk * q && 1 <= q <= |Rcon|
    ensures nk <= n && n % nk == 0
    ensures KeyMix(nk, n, temp) == XorWord(SubWord(RotWord(temp)), Rcon[q - 1])
  {
    BlockPosition(nk, n, q, 0);
  }

  /** A word of the schedule that is neither first in its block nor a 256-bit key's middle word: w[n - Nk] XOR w[n - 1]. */
  lemma XorWordStep(key: seq<bv8>, nk: nat, n: nat, a: bv32, temp: bv32)
    requires ExpansionArgs(key, nk, n + 1) && nk <= n && n % nk != 0 && !(nk > 6 && n % nk == 4)
    requires a == KeyExpansion(key, nk, n)[n - nk] && temp == KeyExpansion(key, nk, n)[n - 1]
    ensures KeyExpansion(key, nk, n + 1) == KeyExpansion(key, nk, n) + [XorWord(a, temp)]
  {
    ExpansionStep(key, nk, n);
  }

  /** Word n = Nk * q + c of the schedule is at position c of key-length block q. */
  lemma BlockPosition(nk: nat, n: nat, q: nat, c: nat)
    requires (nk == 4 || nk == 6 || nk == 8) && n == nk * q + c && c < nk
    ensures n % nk == c && n / nk == q
  {
    if nk == 4 {
      assert n == 4 * q + c;
    } else if nk == 6 {
      assert n == 6 * q + c;
    } else {
      assert n == 8 * q + c;
    }
  }

  /** Rounds 1 .. k read round keys 1 .. k only: two schedules that agree on them agree there. */
  lemma {:induction false} RoundsPrefix(s: State, w: seq<bv32>, v: seq<bv32>, k: nat)
    requires 4 * k + 4 <= |w| && 4 * k + 4 <= |v| && w[..4 * k + 4] == v[..4 * k + 4]
    ensures Rounds1To(s, w, k) == Rounds1To(s, v, k)
  {
    if k > 0 {
      assert w[..4 * k] == w[..4 * k + 4][..4 * k];
      assert v[..4 * k] == v[..4 * k + 4][..4 * k];
      RoundsPrefix(s, w, v, k - 1);
      assert RoundKey(w, k) == RoundKey(v, k) by {
        assert w[4 * k] == w[..4 * k + 4][4 * k] && v[4 * k] == v[..4 * k + 4][4 * k];
      }
      assert Rounds1To(s, w, k) == AfterRound(s, w, k) == RoundOf(s, w, k);
      assert Rounds1To(s, v, k) == AfterRound(s, v, k) == RoundOf(s, v, k);
    }
  }

  /** The equivalent inverse cipher's rounds 1 .. k read round keys 1 .. k only. */
  lemma {:induction false} InvRoundsPrefix(s: State, dw: seq<bv32>, dv: seq<bv32>, k: nat)
    requires 4 * k + 4 <= |dw| && 4 * k + 4 <= |dv| && dw[..4 * k + 4] == dv[..4 * k + 4]
    ensures InvRounds1To(s, dw, k) == InvRounds1To(s, dv, k)
  {
    if k > 0 {
      assert dw[..4 * k] == dw[..4 * k + 4][..4 * k];
      assert dv[..4 * k] == dv[..4 * k + 4][..4 * k];
      InvRoundsPrefix(s, dw, dv, k - 1);
      assert RoundKey(dw, k) == RoundKey(dv, k) by {
        assert dw[4 * k] == dw[..4 * k + 4][4 * k] && dv[4 * k] == dv[..4 * k + 4][4 * k];
      }
      assert InvRounds1To(s, dw, k) == AfterInvRound(s, dw, k) == InvRoundOf(s, dw, k);
      assert InvRounds1To(s, dv, k) == AfterInvRound(s, dv, k) == InvRoundOf(s, dv, k);
    }
  }

  /** Cipher with Nr rounds reads the first 4 * Nr + 4 words of the schedule and no others. */
  lemma CipherPrefix(w: seq<bv32>, nr: nat, input: seq<bv8>)
    requires 1 <= nr && 4 * nr + 4 <= |w| && |input| >= 16
    ensures Cipher(w, nr, input) == Cipher(w[..4 * nr + 4], nr, input)
  {
    var v := w[..4 * nr + 4];
    assert v[..4 * nr] == w[..4 * nr];
    RoundsPrefix(AddRoundKey(Load(input), RoundKey(w, 0)), w, v, nr - 1);
    assert RoundKey(w, 0) == RoundKey(v, 0);
    assert RoundKey(w, nr) == RoundKey(v, nr);
  }

  /** EqInvCipher with Nr rounds reads the first 4 * Nr + 4 words of the schedule and no others. */
  lemma EqInvCipherPrefix(dw: seq<bv32>, nr: nat, input: seq<bv8>)
    requires 1 <= nr && 4 * nr + 4 <= |dw| && |input| >= 16
    ensures EqInvCipher(dw, nr, input) == EqInvCipher(dw[..4 * nr + 4], nr, input)
  {
    var dv := dw[..4 * nr + 4];
    assert dv[..4 * nr] == dw[..4 * nr];
    InvRoundsPrefix(AddRoundKey(Load(input), RoundKey(dw, 0)), dw, dv, nr - 1);
    assert RoundKey(dw, 0) == RoundKey(dv, 0);
    assert RoundKey(dw, nr) == RoundKey(dv, nr);
  }
}
