# ecrypt core: AES (Rijndael), SHA-256, HMAC-SHA-256 and PBKDF2 in Dafny

This project models the two cryptographic core files of the ecrypt library and proves
their code correct against reference definitions taken from the standards.

* `src/rijndael.c` is the table-driven Rijndael (AES) block cipher. It covers:
  * the encryption key schedule, `rijndaelKeySetupEnc`;
  * the decryption key schedule of the equivalent inverse cipher, `rijndaelKeySetupDec`;
  * single-block encryption and decryption, `rijndaelEncrypt` and `rijndaelDecrypt`;
  * the `rijndael_ctx` wrapper: `rijndael_set_key`, `rijndael_set_key_enc_only`,
    `rijndael_encrypt` and `rijndael_decrypt`.
* `src/pbkdf2.c` holds three layers:
  * a streaming SHA-256: `sha256_init`, `sha256_update`, `sha256_transform`, `sha256_finalize`;
  * `hmac_sha256` on top of it;
  * the key-stretching driver `pbkdf2_hmac_sha256`.

## Reference definitions

The reference side is made of pure functions written from the standards.

* **AES.** `AesSpec` defines the cipher as FIPS-197 states it:
  * SubBytes, ShiftRows, MixColumns and AddRoundKey;
  * KeyExpansion of section 5.2;
  * the equivalent inverse cipher of section 5.3.5.
  The S-box and the inverse S-box are transcribed from Figures 7 and 14 of FIPS-197, as the
  leaves of a decision tree on the bits of the input byte. `AesTables` proves that each
  inverts the other. The lookup tables Te0..Te3 and Td0..Td4 are computed column by column
  from the two S-boxes and the field multiplications. The round constants are a literal list,
  proved equal to the successive xtime powers of {01} (`RconPowers`).
  `AesInverse` proves that the equivalent inverse cipher undoes the cipher.
* **SHA-256.** `Sha256Spec` follows FIPS 180-4:
  * the message schedule, the 64 rounds and the compression function;
  * the padding of section 5.1.1;
  * the hash as a left fold of the compression over the padded message.
* **HMAC.** `Mac.Hmac` is RFC 2104.
* **PBKDF2.** `Pbkdf2.BlockF` and `Pbkdf2.DerivedKey` are section 5.2 of RFC 8018. They are
  stated over any 32-byte pseudo-random function and instantiated with HMAC-SHA-256.

## Code side

The code side is imperative Dafny in the shape of the C:

* key schedules and round keys are `array<bv32>`;
* blocks, pads and digests are `array<bv8>`;
* the SHA-256 context and the Rijndael context are classes whose fields the methods update.

Each method's postcondition ties the new array contents to the reference function.

* `rijndaelEncrypt` writes `Cipher(w, Nr, pt)`.
* `rijndael_decrypt` after `rijndael_set_key` gives back the block that `rijndael_encrypt`
  encrypted under the same key.
* `sha256_finalize` writes `Sha256(m)`, where `m` is everything absorbed since `sha256_init`.
* `hmac_sha256` writes `Hmac(key, msg)` when the key is at most 128 bytes and leaves `out`
  untouched otherwise.
* `pbkdf2_hmac_sha256` writes `DerivedKey(pass, salt, rounds, olen)` and zeroes its scratch
  buffers.

Fixed-width arithmetic is explicit:

* 32-bit words are `bv32`; bytes are `bv8`;
* the SHA-256 64-bit bit counter is a pair of 32-bit halves whose carry is modelled exactly as
  `SHA256_INT64_ADD32` does it;
* `uint8_t` truncating casts are bit masks.

## Model

| member | source | states |
|---|---|---|
| Bytes.GetPutU32 | src/rijndael.c:4-9 | Reading back a word stored by PUTU32 with GETU32 gives the word. |
| Bytes.PutGetU32 | src/rijndael.c:4-9 | Storing a word read by GETU32 with PUTU32 reproduces the four bytes. |
| Bytes.PackIsOr | src/pbkdf2.c:198-201 | OR-ing the four shifted bytes, as sha256_transform loads a word, is the same big-endian packing that GETU32 builds with XOR. |
| Bytes.BytesXor | src/rijndael.c:29-33 | Extracting a byte lane commutes with XOR of words. |
| Buffers.XorByteTwice | src/pbkdf2.c:290-293 | XOR-ing a buffer with the same pad byte twice restores it. |
| Buffers.ZeroFill | src/pbkdf2.c:119-122 | memset to zero: the first n bytes become zero and the rest are unchanged. |
| Buffers.CopyAt | src/pbkdf2.c:108-116 | memcpy: the destination holds the source at the offset and is unchanged elsewhere. |
| AesTables.InvSboxSbox | src/rijndael.c:343-373 | The inverse S-box used by the last decryption round undoes the S-box. |
| AesTables.SboxInvSbox | src/rijndael.c:233-263 | The S-box undoes the inverse S-box. |
| AesTables.RconPowers | src/rijndael.c:28-34 | The ten round constants are 1 followed by successive xtime doublings, as in section 5.2 of FIPS-197. |
| AesRounds.EncRound | src/rijndael.c:173-228 | One fused Te0..Te3 table round of the code equals SubBytes, ShiftRows, MixColumns and AddRoundKey. |
| AesRounds.EncFinalRound | src/rijndael.c:233-263 | The masked Te2/Te3/Te0/Te1 lookups of the last round equal SubBytes, ShiftRows and AddRoundKey with no MixColumns. |
| AesRounds.DecRound | src/rijndael.c:283-338 | One fused Td0..Td3 table round equals InvSubBytes, InvShiftRows, InvMixColumns and AddRoundKey of the equivalent inverse cipher. |
| AesRounds.DecFinalRound | src/rijndael.c:343-373 | The Td4 lookups of the last decryption round equal InvSubBytes, InvShiftRows and AddRoundKey. |
| AesRounds.KeyWordRcon | src/rijndael.c:28-34 | The masked Te2/Te3/Te0/Te1 lookups plus rcon compute SubWord(RotWord(temp)) XOR Rcon. |
| AesRounds.KeyWordSub | src/rijndael.c:83-87 | The masked lookups of the 256-bit schedule's middle word compute SubWord(temp). |
| AesRounds.InvMixKey | src/rijndael.c:126-145 | Td0..Td3 composed with the low byte of Te1 is InvMixColumns applied to a round-key word. |
| AesSchedule.KeyExpansionStart | src/rijndael.c:22-25 | The first Nk words of the expansion are the key bytes read big-endian. |
| AesSchedule.RconWordStep | src/rijndael.c:28-34 | The word the code computes at a multiple of Nk is the next word of KeyExpansion. |
| AesSchedule.XorWordStep | src/rijndael.c:35-37 | The plain XOR words of the code are the next words of KeyExpansion. |
| AesSchedule.CipherPrefix | src/rijndael.c:157-264 | The cipher reads only the first 4·Nr+4 words of the schedule. |
| AesSchedule.EqInvCipherPrefix | src/rijndael.c:267-374 | The inverse cipher reads only the first 4·Nr+4 words of its schedule. |
| Rijndael.StoreU32 | src/rijndael.c:7-9 | PUTU32 writes the big-endian bytes of the word at the offset and nothing else. |
| Rijndael.LoadKeyWord | src/rijndael.c:22-25 | One GETU32 of the cipher key extends the prefix of key words by one. |
| Rijndael.KeyWordWithRcon | src/rijndael.c:28-34 | Writing the rcon word at index n extends the schedule prefix KeyExpansion(key, Nk, n) by one; later words are untouched. |
| Rijndael.KeyWordXor | src/rijndael.c:35-37 | Writing a plain XOR word extends the schedule prefix by one; later words are untouched. |
| Rijndael.KeyWordSubOnly | src/rijndael.c:83-87 | Writing the 256-bit schedule's SubWord-only word extends the schedule prefix by one. |
| Rijndael.Block128 | src/rijndael.c:27-42 | One pass of the 128-bit loop adds the next four schedule words. |
| Rijndael.Block192Head | src/rijndael.c:47-60 | The first four words of a 192-bit pass extend the schedule; the loop exits here after the last pass. |
| Rijndael.Block192Tail | src/rijndael.c:61-63 | The remaining two words of a 192-bit pass extend the schedule. |
| Rijndael.Block256Head | src/rijndael.c:69-82 | The first four words of a 256-bit pass extend the schedule; the loop exits here after the last pass. |
| Rijndael.Block256Tail | src/rijndael.c:83-92 | The SubWord word and three XOR words of a 256-bit pass extend the schedule. |
| Rijndael.Expand128 | src/rijndael.c:26-43 | The 128-bit branch leaves the 44-word KeyExpansion in rk and nothing beyond it changed. |
| Rijndael.Expand192 | src/rijndael.c:44-65 | The 192-bit branch leaves the 52-word KeyExpansion in rk. |
| Rijndael.Expand256 | src/rijndael.c:66-93 | The 256-bit branch leaves the 60-word KeyExpansion in rk. |
| Rijndael.RijndaelKeySetupEnc | src/rijndael.c:17-96 | Returns 10, 12 or 14 rounds for 128-, 192- and 256-bit keys, with the full KeyExpansion in rk. For any other size it returns 0 after writing only the eight words the code writes first. |
| Rijndael.SwapWords | src/rijndael.c:114-117 | The words at a and b trade places; every other word is unchanged. |
| Rijndael.SwapRoundKeys | src/rijndael.c:114-117 | The two four-word round keys at i and j trade places; every other word is unchanged. |
| Rijndael.ReverseStep | src/rijndael.c:113-118 | One swap extends the reversed range of round keys by one pair. |
| Rijndael.ReverseRoundKeys | src/rijndael.c:113-118 | After the loop, word x holds old word ReversedIndex(Nr, x): the round keys are in reverse order and the words beyond them are unchanged. |
| Rijndael.InvMixKeyWord | src/rijndael.c:126-145 | One word of a round key becomes InvMixColumns of its old value; no other word changes. |
| Rijndael.InvMixRoundKey | src/rijndael.c:124-146 | One pass transforms the four words of the next round key. |
| Rijndael.InvMixRoundKeys | src/rijndael.c:124-146 | Every word of round keys 1..Nr-1 is InvMixColumns of its old value; the first and last round keys are unchanged. |
| Rijndael.DecScheduleWords | src/rijndael.c:104-149 | Reversal followed by InvMixColumns of the inner round keys is the equivalent-inverse-cipher schedule of section 5.3.5 of FIPS-197. |
| Rijndael.RijndaelKeySetupDec | src/rijndael.c:104-149 | Returns the same round count as the encryption schedule, and rk holds DecSchedule(KeyExpansion(key)). |
| Rijndael.AddFirstRoundKey | src/rijndael.c:167-170 | The initial state is the loaded block XOR round key 0. |
| Rijndael.EncryptRound | src/rijndael.c:173-228 | Each round of the loop advances the state from Rounds1To(j) to Rounds1To(j + 1). |
| Rijndael.EncryptFinalRound | src/rijndael.c:233-263 | From the state after n − 1 full rounds, the final round and the PUTU32 stores write Cipher(w, n, pt) into ct[0..16] and leave the rest of ct alone. |
| Rijndael.EncryptLoop | src/rijndael.c:172-229 | The Nr >> 1 passes of two rounds, the last one breaking before its second half, leave the state after PerformedRounds(Nr) − 1 full rounds and the round-key offset 4·PerformedRounds(Nr). |
| Rijndael.FinalColumns | src/rijndael.c:233-253 | The four masked Te2/Te3/Te0/Te1 column words are the FIPS-197 final round (SubBytes, ShiftRows, AddRoundKey) of the state. |
| Rijndael.StoreBlock | src/rijndael.c:233-263 | Four PUTU32 stores write the state's sixteen bytes column by column. |
| Rijndael.RijndaelEncrypt | src/rijndael.c:157-264 | ct holds the FIPS-197 cipher of pt under the schedule. The round count is the one the loop performs (Nr rounded down to even, PerformedRounds), which is Nr for 10, 12 and 14. |
| Rijndael.DecryptRound | src/rijndael.c:283-338 | Each round of the loop advances the state from InvRounds1To(j) to InvRounds1To(j + 1). |
| Rijndael.DecryptFinalRound | src/rijndael.c:343-373 | From the state after n − 1 full inverse rounds, the Td4 final round writes EqInvCipher(dw, n, ct) into pt[0..16] and leaves the rest of pt alone. |
| Rijndael.DecryptLoop | src/rijndael.c:282-339 | The same two-round loop over the decryption schedule leaves the state after PerformedRounds(Nr) − 1 inverse rounds and the offset 4·PerformedRounds(Nr). |
| Rijndael.InvFinalColumns | src/rijndael.c:343-363 | The four Td4 column words are the final round of the equivalent inverse cipher (InvSubBytes, InvShiftRows, AddRoundKey) of the state. |
| Rijndael.RijndaelDecrypt | src/rijndael.c:267-374 | pt holds the FIPS-197 equivalent inverse cipher of ct under the decryption schedule. |
| Rijndael.PerformedAllRounds | src/rijndael.c:172 | `Nr >> 1` loop passes perform all Nr rounds for every round count the key setup produces. |
| Rijndael.Context.SetKeyEncOnly | src/rijndael.c:378-390 | Returns 0 for supported key sizes, storing the key, Nr and enc_only = 1 with ek the encryption schedule. Otherwise returns -1: ek holds the eight key words loaded before the size test and is unchanged past them, and the key, Nr and enc_only are as they were. |
| Rijndael.Context.SetKey | src/rijndael.c:394-408 | Returns 0 for supported key sizes with both schedules set and enc_only = 0. Otherwise returns -1: ek holds the eight loaded key words and is unchanged past them, dk is untouched, and the key, Nr and enc_only are as they were. |
| Rijndael.Context.Encrypt | src/rijndael.c:417-420 | dst holds AES encryption of src under the stored key. |
| Rijndael.Context.Decrypt | src/rijndael.c:411-414 | dst holds AES decryption (equivalent inverse cipher) of src under the stored key; when src is the encryption of a block p under that key, dst holds p. |
| AesInverse.XTimeXor | src/rijndael.c:126-145 | xtime, the doubling in GF(2^8) that the Td tables are built from, distributes over XOR. |
| AesInverse.InvMixMixColumns | src/rijndael.c:283-338 | InvMixColumns, the Td0..Td3 coefficients, undoes MixColumns, the Te0..Te3 coefficients. |
| AesInverse.InvMixWordXor | src/rijndael.c:126-145 | InvMixColumns of the XOR of two column words is the XOR of their InvMixColumns. |
| AesInverse.InvMixArk | src/rijndael.c:104-149 | InvMixColumns distributes over AddRoundKey, which is why the decryption schedule applies it to the inner round keys. |
| AesInverse.ArkArk | src/rijndael.c:267-374 | Adding the same round key twice gives back the state. |
| AesInverse.InvSubSub | src/rijndael.c:343-373 | InvSubBytes undoes SubBytes. |
| AesInverse.InvShiftShift | src/rijndael.c:283-338 | InvShiftRows, the column order of the decryption lookups, undoes ShiftRows. |
| AesInverse.InvSubShiftUndo | src/rijndael.c:343-373 | InvShiftRows after InvSubBytes undoes SubBytes followed by ShiftRows. |
| AesInverse.LoadStore | src/rijndael.c:276-279 | Reading back with GETU32 the block that PUTU32 stored gives the state. |
| AesInverse.StoreLoad | src/rijndael.c:167-170 | Storing the state read from a block gives back the block's first 16 bytes. |
| AesInverse.DecKeyFirst | src/rijndael.c:113-118 | Round key 0 of the decryption schedule is round key Nr of the encryption schedule. |
| AesInverse.DecKeyLast | src/rijndael.c:113-118 | Round key Nr of the decryption schedule is round key 0 of the encryption schedule. |
| AesInverse.DecKeyMiddle | src/rijndael.c:113-146 | Round key k of the decryption schedule, for 0 < k < Nr, is InvMixColumns of round key Nr - k. |
| AesInverse.UndoRoundOf | src/rijndael.c:283-338 | Inverse round k of the decryption schedule undoes cipher round Nr - k. |
| AesInverse.InvRoundsUndo | src/rijndael.c:267-338 | Under the decryption schedule, the first k inverse rounds take the state after Nr − 1 cipher rounds followed by SubBytes and ShiftRows back to the state after Nr − 1 − k cipher rounds followed by SubBytes and ShiftRows. |
| AesInverse.EqInvCipherCipher | src/rijndael.c:157-374 | For every schedule and round count, the equivalent inverse cipher under DecSchedule undoes the cipher. |
| AesInverse.AesDecryptEncrypt | src/rijndael.c:411-420 | AES decryption under a supported key undoes AES encryption under the same key. |
| Sha256Spec.RotlRotr | src/pbkdf2.c:13-14 | Rotating left by n equals rotating right by 32 - n. |
| Sha256Spec.Int64Add32 | src/pbkdf2.c:18 | The carry macro adds c to the 64-bit value of (lo, hi) modulo 2^64. |
| Sha256Spec.CounterAdd | src/pbkdf2.c:150 | Adding to a counter that holds bits mod 2^64 gives bits + c mod 2^64. |
| Sha256Spec.LengthFieldHalves | src/pbkdf2.c:151-159 | The eight length bytes the code writes, high half then low half, are the 64-bit big-endian length field of FIPS 180-4. |
| Sha256Spec.PadZeros | src/pbkdf2.c:135-148 | The number of zero bytes is below 64 and makes marker, zeros and length end on a block boundary. |
| Sha256Spec.Pad | src/pbkdf2.c:129-174 | The padded message starts with the message and is a whole number of blocks. |
| Sha256Spec.HashBlocksConcat | src/pbkdf2.c:240-254 | Hashing two block-aligned pieces in sequence equals hashing their concatenation. |
| Sha256Spec.Full | src/pbkdf2.c:240-254 | The compressed part of a stream is its longest block-aligned prefix. |
| Sha256Spec.Tail | src/pbkdf2.c:240-254 | The buffered part is the rest, shorter than a block. |
| Sha256Spec.TailSucc | src/pbkdf2.c:246-247 | A byte that does not fill the buffer only extends the buffered tail. |
| Sha256Spec.TailFull | src/pbkdf2.c:248-252 | The byte that fills the buffer turns the tail into a new whole block and empties it. |
| Sha256Spec.AbsorbedBounds | src/pbkdf2.c:28-33 | In a context that has absorbed m, datalen is below 64 and equals the length of m mod 64. |
| Sha256Spec.AbsorbedUnique | src/pbkdf2.c:28-33 | The context invariant determines datalen, the state, both counter halves and the buffered bytes from the message alone, so any way of feeding m gives the same context. |
| Sha256Spec.AbsorbedEmpty | src/pbkdf2.c:176-190 | The initial values describe a context that has absorbed nothing. |
| Sha256Spec.AbsorbBuffered | src/pbkdf2.c:246-247 | Storing a byte that does not fill the buffer keeps the context invariant for m + [b]. |
| Sha256Spec.AbsorbFull | src/pbkdf2.c:246-252 | Storing the 64th byte, compressing and adding 512 to the counter keeps the invariant for m + [b]. |
| Sha256Spec.PadOneBlock | src/pbkdf2.c:135-139 | When the tail has under 56 bytes, the padding fits in one final block. |
| Sha256Spec.PadTwoBlocks | src/pbkdf2.c:140-148 | Otherwise the marker block is compressed first and a block of zeros carries the length. |
| Sha256Spec.FinalOneBlock | src/pbkdf2.c:135-161 | The one-block path hashes the padded message. |
| Sha256Spec.FinalTwoBlocks | src/pbkdf2.c:140-161 | The two-block path hashes the padded message. |
| Sha256Spec.FinalCounter | src/pbkdf2.c:150 | Adding the tail's bits makes the counter the message length in bits mod 2^64. |
| Sha256Spec.FinalHash | src/pbkdf2.c:129-161 | Both padding paths together end in the state HashBlocks(H0, Pad(m)). |
| Sha256Spec.Sha256 | src/pbkdf2.c:129-174 | The digest is 32 bytes for any input length, the empty input included. |
| Sha256.LoadSchedule | src/pbkdf2.c:198-206 | The 64-word schedule array holds the FIPS 180-4 message schedule of the block. |
| Sha256.ExtendSchedule | src/pbkdf2.c:203-206 | Words 16..63 extend the loaded block words into the full schedule. |
| Sha256.FeedForward | src/pbkdf2.c:230-237 | The new state is the old state with each of the eight words increased by its working variable modulo 2^32. |
| Sha256.SetInitialHash | src/pbkdf2.c:182-189 | The state becomes H(0) of FIPS 180-4. |
| Sha256.DigestByte | src/pbkdf2.c:164-173 | The shifted and masked byte is byte i of the big-endian word. |
| Sha256.EmitColumn | src/pbkdf2.c:164-173 | One pass of the digest loop stores byte i of every state word. |
| Sha256.EmitDigest | src/pbkdf2.c:164-173 | The digest loop writes the 32-byte big-endian serialisation of the state and nothing past it. |
| Sha256.IndexAfter | src/pbkdf2.c:240-245 | After k increments the 32-bit loop index holds k mod 2^32, which is k while k < 2^32. |
| Sha256.UpdateNeverEnds | src/pbkdf2.c:243-245 | For a length of 2^32 or more, the index stays below the length after any number of increments and comes back to the same value every 2^32 increments. |
| Sha256.Context.Wipe | src/pbkdf2.c:281 | The memset of the context: datalen, the state, both counter halves and the data buffer are zero. |
| Sha256.Context.Init | src/pbkdf2.c:176-190 | A fresh context: no bytes buffered, counter zero, state H(0), and it has consumed nothing. |
| Sha256.Context.Transform | src/pbkdf2.c:192-238 | The state becomes the compression function of the old state and the 64-byte block. |
| Sha256.Context.Absorb | src/pbkdf2.c:246-252 | Appending one byte keeps the context invariant, with the byte added to the consumed message. |
| Sha256.Context.Update | src/pbkdf2.c:240-254 | After update, the context has consumed the old message followed by the input. |
| Sha256.Context.CountBits | src/pbkdf2.c:150 | The counter pair advances by c with carry into the high half. |
| Sha256.Context.PadTail | src/pbkdf2.c:135-148 | The buffer gets the 0x80 marker after the buffered bytes, then zeros up to the end position. |
| Sha256.Context.StoreLength | src/pbkdf2.c:151-159 | Bytes 56..63 become the high and then the low counter word, big-endian. |
| Sha256.Context.PadLast | src/pbkdf2.c:135-148 | The state and the buffer head are those of the padding path chosen by the tail length. |
| Sha256.Context.LengthBlock | src/pbkdf2.c:150-159 | The counter gains the tail's bits, becoming 8·|m| mod 2^64, and bytes 56..63 become that bit length in big-endian order after the padded head. |
| Sha256.Context.FinalBlock | src/pbkdf2.c:135-161 | The state after padding is the last compression of the padded message, and the counter holds its bit length. |
| Sha256.Context.Finalize | src/pbkdf2.c:129-174 | hash holds SHA-256 of everything consumed since init and nothing past 32 bytes changes. |
| Mac.BlockKey | src/pbkdf2.c:273-287 | The key is hashed when longer than 64 bytes, then zero-padded to 64 bytes. |
| Mac.Hmac | src/pbkdf2.c:258-310 | HMAC of RFC 2104: the 32-byte outer hash of the outer pad and the inner hash of the inner pad and the message. |
| Mac.HmacLongKey | src/pbkdf2.c:276-284 | A key longer than the block gives the same MAC as its digest. |
| Mac.HmacZeroPadding | src/pbkdf2.c:273-287 | Appending zero bytes to a key of at most a block does not change the MAC. |
| Mac.LongKeyNotMac | src/pbkdf2.c:265-267 | For a 129-byte key, out keeps its prior contents, so for one of two prior contents it does not hold the MAC. |
| Mac.XorPads | src/pbkdf2.c:290-293 | The XOR loop turns the padded key into the inner pad (0x36) and the outer pad (0x5c). |
| Mac.HashKey | src/pbkdf2.c:276-284 | The key digest lands in houtput and the context is wiped. |
| Mac.LoadKey | src/pbkdf2.c:273-287 | Both pads hold the zero-padded key, or its digest when the key is longer than 64 bytes. The digest goes to houtput, which a key of at most 64 bytes leaves untouched. |
| Mac.KeyPads | src/pbkdf2.c:273-293 | The pads are the padded key XOR 0x36 and XOR 0x5c. |
| Mac.HashTwo | src/pbkdf2.c:295-305 | init, two updates and finalize produce SHA-256 of the concatenation. |
| Mac.MacInto | src/pbkdf2.c:295-305 | The inner and outer hashes produce H(opad ‖ H(ipad ‖ msg)). |
| Mac.Scrub | src/pbkdf2.c:307-309 | Pads and the key digest are zero. |
| Mac.HmacCore | src/pbkdf2.c:273-309 | For a key the code accepts, out holds Hmac(key, msg) and all scratch buffers are zero on return. |
| Mac.HmacSha256 | src/pbkdf2.c:258-310 | out holds Hmac(key, msg) for keys of at most 128 bytes and keeps its prior contents for longer keys; nothing beyond 32 bytes changes. |
| Pbkdf2.NumBlocksBounds | src/pbkdf2.c:89 | The loop runs ceil(olen / 32) times: enough blocks for olen bytes, and no more than needed. |
| Pbkdf2.BlocksPrefix | src/pbkdf2.c:89-117 | The concatenated blocks for m counters are a prefix of those for n ≥ m counters. |
| Pbkdf2.DerivedKeyPrefix | src/pbkdf2.c:108-116 | A shorter derived key is a prefix of a longer one. |
| Pbkdf2.DerivedKeyBlock | src/pbkdf2.c:108-116 | Bytes 32·(i-1) up to min(olen, 32·i) of the derived key are the prefix of T_i. |
| Pbkdf2.DerivedKeyStep | src/pbkdf2.c:108-116 | Appending take bytes of T_count to the key derived so far gives the key of the next length. |
| Pbkdf2.StoreCount | src/pbkdf2.c:91-94 | The last four bytes of asalt become the big-endian block counter; the salt is unchanged. |
| Pbkdf2.XorInto | src/pbkdf2.c:103-105 | obuf becomes its old value XOR the new U value, byte by byte. |
| Pbkdf2.TakeRound | src/pbkdf2.c:102-105 | d1 takes d2's value and obuf accumulates it by XOR. |
| Pbkdf2.NextRound | src/pbkdf2.c:101-105 | d1 becomes HMAC(pass, old d1) and obuf accumulates it. |
| Pbkdf2.IterateNext | src/pbkdf2.c:100-106 | U_{i+1} is HMAC(pass, U_i). |
| Pbkdf2.ComputeBlock | src/pbkdf2.c:97-106 | obuf ends as U_1 XOR ... XOR U_rounds, the fold of the iterated MACs. |
| Pbkdf2.EmitBlock | src/pbkdf2.c:91-116 | One outer pass splices the first take bytes of T_count into out at pos. |
| Pbkdf2.AppendStep | src/pbkdf2.c:108-116 | The splice extends the derived key prefix in out by take bytes. |
| Pbkdf2.AppendBlock | src/pbkdf2.c:89-117 | One outer pass keeps out equal to the key derived so far followed by the untouched bytes, and decreases olen. |
| Pbkdf2.DeriveBlocks | src/pbkdf2.c:89-117 | The block loop leaves DerivedKey(pass, salt, rounds, olen) in out, followed by its old contents. |
| Pbkdf2.Scrub | src/pbkdf2.c:119-122 | asalt, d1, d2 and obuf are all zero. |
| Pbkdf2.Pbkdf2HmacSha256 | src/pbkdf2.c:67-127 | Returns InvalidParameters (4) without touching out when rounds < 1, olen == 0 or the salt is empty. Otherwise returns 0 with the RFC 8018 derived key in out[0..olen], the rest unchanged and every scratch buffer zeroed. |

## Left out

- `rijndael_const.c` is not part of this model. The S-boxes come from FIPS-197 and the
  tables Te0..Te3 and Td0..Td4 are computed from them, so the literal hexadecimal tables of
  that file are not compared entry by entry.
- Known-answer vectors (the PBKDF2 digests for "password"/"salt" and the SHA-256 test digests)
  are not stated. Their proof would unfold thousands of SHA-256 compressions.
- `SHA256_ROTL` (src/pbkdf2.c:13) is modelled (`Rotl`, `RotlRotr`) but the code never uses it.
- Rijndael.Context.Decrypt: requires that the context was keyed with `rijndael_set_key`. After
  `rijndael_set_key_enc_only` the C reads a decryption schedule that was never written.
- Rijndael.RijndaelEncrypt and Rijndael.RijndaelDecrypt: require Nr ≥ 2, because the C's round
  loop with `r = Nr >> 1` then runs at least once. The setup functions only produce 10, 12 or 14.
- Sha256.Context.Finalize: requires that the output buffer is not the context's own data buffer.
- Pbkdf2.Pbkdf2HmacSha256 has these preconditions:
  - `plen <= 128`, because hmac_sha256 silently rejects longer passwords;
  - `rounds < 2^31` and fewer than 2^31 - 1 blocks, because the C's `int` counters `i` and
    `count` would overflow.
- `malloc` of asalt is modelled as a fresh array. Its unchecked NULL result and `free` are
  not modelled.
- Zeroing of scratch buffers is a postcondition on their final contents. Whether a C compiler
  elides those `memset` calls is outside the model.
- Read-only inputs (keys, messages, salts) are passed as sequences, so aliasing between an
  input and an output buffer is not modelled.
- The PBKDF2 lemmas (`BlocksPrefix`, `DerivedKeyPrefix`, `DerivedKeyBlock`, `DerivedKeyStep`,
  `AppendStep`) are proved for any 32-byte PRF. The methods instantiate them with HMAC-SHA-256.
- The stale `void` prototype of `pbkdf2_hmac_sha256` in `src/pbkdf2/pbkdf2.h` is not modelled;
  the model follows the `int`-returning definition in `src/pbkdf2.c`.
- Blowfish, Salsa20, the CBC wrappers, the test programs and `example/main.c` are outside the
  core and are not modelled.

## Findings

RFC 2104 (section 2) hashes any key longer than the 64-byte block. The code does that for keys
of 65 to 128 bytes but returns early for longer keys. `Mac.HmacSha256` follows the code, and
`Mac.Hmac` is the corrected definition.

The loop of `sha256_update` counts with a 32-bit `i` against a `size_t` length. For a length
of 2^32 bytes or more, `i` wraps before reaching it and the loop never ends. `Sha256.IndexAfter`
and `Sha256.UpdateNeverEnds` model the index as written. `Sha256.Context.Update` absorbs inputs
of any length, as a `size_t` index would.

| source | as written | input that shows it | evidently intended | confidence | as-written member | corrected member |
|---|---|---|---|---|---|---|
| src/pbkdf2.c:265-267 | `hmac_sha256` returns without writing `out` when `klen > 128`. The caller, including PBKDF2 with a long password, then reads whatever `out` held before. | a 129-byte key of zeros, with `out` all zeros or all 0xff | hash any key longer than the 64-byte block (RFC 2104) and produce its MAC | not executed | Mac.HmacSha256, Mac.LongKeyNotMac | Mac.Hmac, Mac.HmacLongKey, Mac.HmacCore |
| src/pbkdf2.c:243-245 | the loop index `i` of `sha256_update` is `uint32_t` while `len` is `size_t`; for `len >= 2^32` the test `i < len` never fails | `len = 2^32` | a `size_t` index, so that every byte is absorbed once | not executed | Sha256.IndexAfter, Sha256.UpdateNeverEnds | Sha256.Context.Update |
