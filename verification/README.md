# GcToolKit in Dafny

GcToolKit makes backups of PlayStation Vita game cartridges. To get at the per-cart keys it plays the console side of
the CMD56 authentication protocol against the cart; it also contains the cart side. This project models both sides, the
cryptography below them, the driver that decides when captured keys count as valid, the engine that copies devices to
image files and back, and the text converters of the on-screen keyboard.

Code that updates structures in place is modelled by classes and array methods. Each method is tied to a function on
values, and the properties are proved about those functions, so they hold of the methods too.

| files | what they hold |
|---|---|
| `Bytes` | byte strings, `memcpy` and `memset`, numbers in bytes |
| `Sbox`, `Gf256`, `MixColumn`, `Fips197`, `Aes` | AES-128: tables, the field, FIPS 197 on values and its inverse theorem, the in-place code |
| `Cbc`, `Cmac`, `Rng` | CBC with the IV inside the buffer, AES-CMAC against RFC 4493, the random byte stream |
| `AesStandard` | the cipher, its schedule and the MAC in the form the standards print them |
| `Cmd56`, `Cmd56Sm`, `PacketBuffers`, `PacketFields` | packets, key derivation, packet signatures, what a reader finds in a packet |
| `GcSpec`, `Gc`, `CartAnswers`, `CartLock` | the cart: on values, in place, its answers packet by packet, and its lock over any history |
| `VitaSpec`, `Vita`, `Soundness`, `ConsolePackets` | the console: on values, in place, what it accepts from an arbitrary responder, and what it sends and returns packet by packet |
| `Handshake` | both sides wired together |
| `AuthEmu` | the validity of captured keys and the authentication hook |
| `Fips180`, `ShaStandard`, `Sha256` | SHA-256: FIPS 180-4 on values, where its constants come from and what its functions mean, the streaming context |
| `Transfer`, `Images`, `Device` | the copy engine on values, image formats and drivers, the code in place |
| `Ime` | UTF-16 and UTF-8 |

The main results are `Handshake.HonestRun`, `Soundness.ConsoleSoundness`, `ConsolePackets.ConsoleSends`,
`CartAnswers.Packet18Errors` with the other lemmas of that module, `CartLock.LockSinceInit`, `AuthEmu.CapturedKeys`,
`Fips197.CipherInverse`, `AesStandard.Schedule`, `Cbc.DecryptPrefix`, `Cmac.AgreesExactly`, `Cmac.LengthDecides`,
`Cmd56Sm.RetailSessionKey`, `Sha256.Ctx.Final`, `ShaStandard.RoundConstants`, `Images.DumpedImage`,
`Images.PsvReadsBack`, `Images.VciReadsBack`, `Images.RestoredExactly`, `Ime.DecodeEncode`, `Ime.EncodeDecode` and
`Ime.PairIsUtf8`.

## What the code does that one might not expect

The model follows the code in each case.

- `allow_prototype_keys` shuts prototype ids out when it is set (`kern/cmd56/vita.c:64`), although the comment at line 373
  says the opposite; `vita_cmd56_init_ex` ignores its parameter (line 381). `Handshake.Accepts` is the exact condition.
- `AES_CMAC_buffer` pads a partial last block after the chaining xor (`kern/cmd56/crypto/aes_cmac.c:62-73`), so for every
  length above 16 that is not a multiple of 16 it leaves RFC 4493 on some message: `Cmac.LengthDecides` for lengths,
  `Cmac.AgreesExactly` for single messages.
- The first conjunct of the type check at `kern/cmd56/gc.c:215` is always true.
- `or_w_80` touches bytes 0, 16, 32 and so on only; the console compares challenges from byte 1 on.
- `BIGMAC_KEY_0x348` has 32 bytes, of which AES-128 uses the first 16.
- `dump_device_phys` checks the wrong descriptor after opening the device (`app/device.c:292`); `Images.NothingToDump`
  shows that the first read catches it. `restore_device` returns the descriptor of the image when the device cannot be
  opened (line 373), which reads as success; `Images.RestoredDevice` says so.
- `restore_device` also reports success after a read that was short in the middle of the image, which is filled up with
  zeros, and after a write that was short in the middle of the device, behind which the image goes on without the lost
  bytes. `Images.RestoredExactly` is the exact condition, and `Images.CutTogether` a harmless case.
- `kEnableGcEmuMgr` takes the hook id 0 for no hook (`kern/auth_emu.c:172`); `AuthEmu.HooksInHand` counts what follows.
- The surrogate branch of `utf16_to_utf8` writes standard UTF-8 for some pairs only (`app/ime.c:27-32`), and the decoder
  has no case for four bytes; `Ime.PairIsUtf8` is the exact condition for writing, `Ime.DecodeEncode` for reading back.

## Model

| member | source | states |
|---|---|---|
| `Sbox.TablesInverse` | kern/cmd56/crypto/aes.c:78-115 | `sbox` and `rsbox` undo each other on all 256 bytes, in both orders |
| `Sbox.SubIsAffineOfInverse` | kern/cmd56/crypto/aes.c:78-95 | each entry of `sbox` is the affine transform of FIPS 197 section 5.1.1 of a multiplicative inverse of its index, zero counting as its own |
| `Gf256.XtimeLinear` | kern/cmd56/crypto/aes.c:282-285 | `xtime` distributes over xor |
| `Gf256.ProductLinear` | kern/cmd56/crypto/aes.c:304-322 | multiplication by any byte in GF(2^8) distributes over xor |
| `Gf256.ProductAdds` | kern/cmd56/crypto/aes.c:304-322 | and so does it in the factor |
| `Gf256.MultiplyIsProduct` | kern/cmd56/crypto/aes.c:308-322 | for every multiplier below 0x20, which covers the four that are used, `Multiply` is multiplication of polynomials modulo x^8 + x^4 + x^3 + x + 1 |
| `MixColumn.MixInOnePass` | kern/cmd56/crypto/aes.c:288-301 | the overwriting formulas with `t`, `Tmp` and `Tm` give the matrix product of FIPS 197 section 5.1.3 on every column |
| `MixColumn.InvMixOfMix` | kern/cmd56/crypto/aes.c:338-354 | the matrix of section 5.3.3 undoes the one of section 5.1.3 |
| `MixColumn.MixOfInvMix` | kern/cmd56/crypto/aes.c:288-301 | and the other way round |
| `Fips197.SubBytesInverse` | kern/cmd56/crypto/aes.c:359-369 | `InvSubBytes` and `SubBytes` undo each other |
| `Fips197.ShiftRowsInverse` | kern/cmd56/crypto/aes.c:371-397 | `InvShiftRows` and `ShiftRows` undo each other |
| `Fips197.MixColumnsInverse` | kern/cmd56/crypto/aes.c:338-354 | `InvMixColumns` and `MixColumns` undo each other on whole states |
| `Fips197.InvRoundsOfRounds` | kern/cmd56/crypto/aes.c:427-449 | any number of inverse rounds undoes the same rounds, for any round keys |
| `Fips197.CipherInverse` | kern/cmd56/crypto/aes.c:401-449 | for every block and every 176 bytes of round keys, `InvCipher` after `Cipher` and `Cipher` after `InvCipher` restore the block |
| `Aes.RconIsPower` | kern/cmd56/crypto/aes.c:119-121 | each round constant is the power of x that FIPS 197 section 5.2 asks for |
| `Aes.KeyExpansion` | kern/cmd56/crypto/aes.c:145-216 | the in-place expansion produces the 44 words of FIPS 197 section 5.2, word for word |
| `Aes.InitCtx` | kern/cmd56/crypto/aes.c:218-221 | the context holds the expanded key |
| `Aes.AddRoundKey` | kern/cmd56/crypto/aes.c:225-235 | the double loop adds round key `round` to the 16 bytes of the state and touches nothing else |
| `Aes.SubBytes` | kern/cmd56/crypto/aes.c:239-249 | in-place substitution, the rest of the buffer unchanged |
| `Aes.ShiftRows` | kern/cmd56/crypto/aes.c:254-280 | the three rotations through `temp` are the row shifts of section 5.1.2 |
| `Aes.MixColumns` | kern/cmd56/crypto/aes.c:288-301 | in-place column mixing equals the matrix product on all four columns |
| `Aes.InvSubBytes` | kern/cmd56/crypto/aes.c:359-369 | in-place inverse substitution |
| `Aes.InvShiftRows` | kern/cmd56/crypto/aes.c:371-397 | the three rotations are the row shifts of section 5.3.1 |
| `Aes.MultiplyFactors` | kern/cmd56/crypto/aes.c:350-353 | `Multiply` at 0x09, 0x0b, 0x0d and 0x0e is the field product |
| `Aes.InvMixColumns` | kern/cmd56/crypto/aes.c:338-354 | in-place inverse mixing equals the inverse matrix product |
| `Aes.Cipher` | kern/cmd56/crypto/aes.c:401-424 | the round loop that leaves through its middle computes FIPS 197 section 5.1 |
| `Aes.InvCipher` | kern/cmd56/crypto/aes.c:427-449 | likewise for section 5.3 |
| `AesStandard.RowsShift` | kern/cmd56/crypto/aes.c:254-280 | row r of the state is rotated left by r places (section 5.1.2), by row and column number |
| `AesStandard.ColumnTimesPolynomial` | kern/cmd56/crypto/aes.c:288-354 | the two matrices are multiplication modulo x^4 + 1 by {03}x^3 + {01}x^2 + {01}x + {02} and by {0b}x^3 + {0d}x^2 + {09}x + {0e} (sections 5.1.3 and 5.3.3) |
| `AesStandard.Schedule` | kern/cmd56/crypto/aes.c:145-216 | every byte of the expanded key from those in front of it, with the ten round constants as numbers (section 5.2) |
| `AesStandard.CipherIsTenRounds` | kern/cmd56/crypto/aes.c:401-424 | for any states linked by nine full rounds, the cipher is the last round, without MixColumns, after the ninth (section 5.1) |
| `Cbc.EncryptBlocks` | kern/cmd56/crypto/aes.c:489-500 | ciphertext block j is the cipher of plaintext block j xor ciphertext block j - 1 (SP 800-38A section 6.2) |
| `Cbc.DecryptEncrypt` | kern/cmd56/crypto/aes.c:489-515 | decryption restores every plaintext, for every key, IV and length |
| `Cbc.EncryptDecrypt` | kern/cmd56/crypto/aes.c:489-515 | and encryption restores every ciphertext |
| `Cbc.DecryptInPieces` | kern/cmd56/crypto/aes.c:502-515 | decrypting two consecutive pieces, the second with the IV the first leaves, equals decrypting the whole |
| `Cbc.EncryptInPieces` | kern/cmd56/crypto/aes.c:489-500 | the same for encryption |
| `Cbc.DecryptPrefix` | kern/cmd56/vita.c:236-236 | a whole-block prefix of a ciphertext decrypts to the same prefix of the plaintext, on which the B1 request relies |
| `Cbc.XorWithIv` | kern/cmd56/crypto/aes.c:480-487 | xor of a block with a block that may lie in the same buffer |
| `Cbc.EncryptBuffer` | kern/cmd56/crypto/aes.c:489-500 | the loop whose `Iv` points back into the buffer being encrypted computes CBC; NULL stands for zero |
| `Cbc.DecryptBlocks` | kern/cmd56/crypto/aes.c:502-515 | the loop that keeps the next IV aside computes CBC decryption and leaves the last ciphertext block in the IV of the caller |
| `Cbc.DecryptBuffer` | kern/cmd56/crypto/aes.c:502-515 | with a NULL IV standing for zero |
| `Cbc.DecryptBufferKey` | kern/cmd56/crypto/aes.c:517-524 | CBC decryption under the expanded key |
| `Cbc.EncryptBufferKey` | kern/cmd56/crypto/aes.c:526-533 | CBC encryption under the expanded key, also when key, buffer and IV hold the same block |
| `Cmac.ShiftIsTimesTwo` | kern/cmd56/crypto/aes_cmac.c:6-17 | `left_shift` is multiplication by two modulo 2^128 of the big-endian value |
| `Cmac.DoubledIsDouble` | kern/cmd56/crypto/aes_cmac.c:33-46 | with the conditional 0x87 it is doubling in GF(2^128) |
| `Cmac.Subkeys` | kern/cmd56/crypto/aes_cmac.c:33-46 | the two subkeys are the only pair that has the values L times x and L times x squared of RFC 4493 section 2.3 |
| `Cmac.WholeBlocks` | kern/cmd56/crypto/aes_cmac.c:49-81 | for lengths that are positive multiples of 16 the code computes the MAC of RFC 4493 section 2.4 |
| `Cmac.AgreesExactly` | kern/cmd56/crypto/aes_cmac.c:62-73 | for any non-empty message it does so if and only if the last block is whole or the chaining value has only zeros where padding goes |
| `Cmac.LengthDecides` | kern/cmd56/crypto/aes_cmac.c:49-81 | under every key, all messages of a positive length get their RFC 4493 MAC if and only if the length is a multiple of 16 or below 16 |
| `Cmac.ShortMessages` | kern/cmd56/crypto/aes_cmac.c:49-81 | so every message of 1 to 16 bytes is served correctly |
| `Cmac.PartialBlockFails` | kern/cmd56/crypto/aes_cmac.c:68-73 | and under every key a named 17-byte message is not |
| `Cmac.EmptyMessage` | kern/cmd56/crypto/aes_cmac.c:49-81 | the empty message gets zero, which is its MAC exactly under keys that decrypt zero to the padded empty block plus K2 |
| `AesStandard.MacIsLastCbcBlock` | kern/cmd56/crypto/aes_cmac.c:49-81 | the MAC to which the code is compared is the last block of the CBC encryption, from zero, of the message with its last block completed by 0x80 and zeros if need be and masked with K1 or K2 (RFC 4493 section 2.4) |
| `Cmac.LeftShift` | kern/cmd56/crypto/aes_cmac.c:6-17 | the downward loop with its overflow bit |
| `Cmac.AddPadding` | kern/cmd56/crypto/aes_cmac.c:20-25 | 0x80 and zeros after the first bytes, which stay |
| `Cmac.BlockXorTriple` | kern/cmd56/crypto/aes_cmac.c:27-31 | bytewise xor, also into its own first operand |
| `Cmac.GenSubkey` | kern/cmd56/crypto/aes_cmac.c:33-46 | leaves K1 and K2 in the two arrays |
| `Cmac.StepBlock` | kern/cmd56/crypto/aes_cmac.c:58-73 | one pass up to the encryption, for whole and partial blocks |
| `Cmac.MacBuffer` | kern/cmd56/crypto/aes_cmac.c:49-81 | the loop computes what the lemmas above judge, for every length, and writes 16 bytes |
| `Cmac.MacBufferKey` | kern/cmd56/crypto/aes_cmac.c:83-87 | the same under a raw key |
| `Rng.NthOfNth` | kern/cmd56/cmd56_sm.c:98-114 | cycling j times and then k times is cycling j + k times |
| `Rng.StreamContinues` | kern/cmd56/cmd56_sm.c:98-114 | a request for whole blocks leaves the generator where the stream goes on |
| `Rng.SelfEncryption` | kern/cmd56/crypto/aes.c:526-533 | encrypting the state with itself as key, buffer and IV yields the encryption of the zero block under the state |
| `Rng.SeededTwice` | kern/cmd56/cmd56_sm.c:92-95 | seeding twice with the same bytes restores the state |
| `Rng.RandState.Seed` | kern/cmd56/cmd56_sm.c:92-95 | the first 16 bytes of the seed are xored into the head of the state |
| `Rng.RandState.Cycle` | kern/cmd56/cmd56_sm.c:107-108 | one cycle moves the state to its successor |
| `Rng.RandState.RandBytes` | kern/cmd56/cmd56_sm.c:98-114 | the bytes delivered are the first `size` of the stream s1, s2, ..., and the state ends at the block of index ceil(size / 16) |
| `Cmd56Sm.KnownKeyIds` | kern/cmd56/cmd56_sm.c:39-73 | a session key exists for exactly the four known key ids |
| `Cmd56Sm.RetailSessionKey` | kern/cmd56/cmd56_sm.c:52-69 | the session key for id 0x1 is the one block that CBC under the first half of the big key and the fixed IV encrypts to the MAC of the cart random under the seed of that id |
| `Cmd56Sm.PrototypeSessionKeys` | kern/cmd56/cmd56_sm.c:42-60 | for ids 0x8001, 0x8002 and 0x8003 it is the MAC of the cart random under the seed of the id |
| `Cmd56Sm.OpenSealed` | kern/cmd56/cmd56_sm.h:21-22 | `decrypt_cbc_zero_iv` undoes `encrypt_cbc_zero_iv`, also on a whole-block prefix |
| `Cmd56Sm.DeriveSessionKey` | kern/cmd56/cmd56_sm.c:39-73 | the key is the RFC 4493 MAC of the cart random under the seed of the key id, decrypted once more for id 0x1; without a seed the output stays as it was |
| `Cmd56Sm.DoCmacHash` | kern/cmd56/cmd56_sm.c:75-87 | for every size up to 0x40, writes what `AES_CMAC_buffer` makes of the three header bytes in a block of their own followed by the data |
| `Cmd56Sm.WholeSignature` | kern/cmd56/cmd56_sm.c:75-87 | for whole blocks that is the RFC 4493 MAC |
| `Cmd56.Field16` | kern/cmd56/compiler_defs.h:16-20 | a 16-bit field reads back, and swapping its bytes twice restores it |
| `Cmd56.Fields16` | kern/cmd56/compiler_defs.h:16-20 | a 16-bit field has the value of its bytes, low byte first, and swapping exchanges the two |
| `Cmd56.RequestHeaderIs` | kern/cmd56/cmd56.h:12 | the three header bytes of a signed request are the number command + 0x10000 * additional_data_size, low byte first |
| `Cmd56.ResponseHeaderIs` | kern/cmd56/vita.c:256-260 | the three header bytes of a signed response are the number in its size field, low byte first |
| `Cmd56.ResponseStartFits` | kern/cmd56/cmd56.c:20-36 | a response started for a request that asks for at most 0x1f5 bytes records that size, byte swapped |
| `Cmd56.PayloadSlices` | kern/cmd56/cmd56.h:16-17 | fields written at the head of a packet are found there |
| `Cmd56.Or80Idempotent` | kern/cmd56/cmd56_sm.h:32-34 | `or_w_80` sets the top bit of byte 0 of a block and changes nothing else; applying it twice changes nothing more |
| `PacketBuffers.RequestBuffer.Start` | kern/cmd56/cmd56.c:9-18 | the request structure after `cmd56_request_start` |
| `PacketBuffers.ResponseBuffer.Start` | kern/cmd56/cmd56.c:20-26 | the response structure after `cmd56_response_start` |
| `PacketBuffers.ResponseBuffer.Error` | kern/cmd56/cmd56.c:28-36 | the response structure after `cmd56_response_error`, filled with 0xFF over its size |
| `Gc.GcState.constructor` | kern/cmd56/gc.c:361-373 | a locked cart with key id 0x1 and the given keys, and the generator seeded with the key id and both keys |
| `Gc.GcState.HandleStart` | kern/cmd56/gc.c:14-22 | in place: locks the cart and answers START |
| `Gc.GcState.HandleStatus` | kern/cmd56/gc.c:24-29 | in place: reports the lock status |
| `Gc.GcState.HandleSessionKey` | kern/cmd56/gc.c:31-93 | in place: draws the cart random, derives the session key; an unknown key id uses whatever the stack held |
| `Gc.GcState.HandleSharedRandom` | kern/cmd56/gc.c:95-129 | in place: checks the key id, joins the two halves of the shared random and returns them sealed |
| `Gc.GcState.HandleSecondaryKey` | kern/cmd56/gc.c:131-168 | in place: unlocks only if the decrypted challenge is the shared random |
| `Gc.GcState.HandleVerify` | kern/cmd56/gc.c:170-192 | in place: returns challenge and cart random sealed under the secondary key |
| `Gc.GcState.HandleP18` | kern/cmd56/gc.c:195-254 | in place: checks signature and challenge, then answers with the packet 18 key sealed and signed, or with an error |
| `Gc.GcState.HandleP20` | kern/cmd56/gc.c:256-287 | in place: answers with the packet 20 key sealed and signed |
| `Gc.GcState.HandleUnknown` | kern/cmd56/gc.c:290-294 | in place: answers with error 0x11 |
| `Gc.GcState.DeriveSession` | kern/cmd56/gc.c:78-92 | the session key of the cart, from the stack bytes if the key id has no seed |
| `Gc.GcState.Run` | kern/cmd56/gc.c:382-390 | `gc_cmd56_run`: new state and answer are those of the specification for the bytes the generator delivers; the request buffer and the generator end where they should |
| `CartAnswers.SharedRandomErrors` | kern/cmd56/gc.c:95-129 | every addressed A2 gets error 0x11 if the key id it names, high byte first, is not that of the cart, and 0 otherwise |
| `CartAnswers.SecondaryKeyErrors` | kern/cmd56/gc.c:131-168 | every addressed A3 gets error 0xF1 if it does not open to a key followed by the shared random, and 0 otherwise |
| `CartAnswers.Packet18Errors` | kern/cmd56/gc.c:195-254 | every addressed B1 gets error 0xF4 if its signature is not the MAC of header and first two blocks, else 0x11 if the challenge does not open to a block with its top bit set, else 0 |
| `CartAnswers.OtherErrors` | kern/cmd56/gc.c:296-334 | START, status, A1, A4 and C1 always get error 0, and an unknown command always 0x11 |
| `CartAnswers.Frame` | kern/cmd56/cmd56.c:20-36 | every answer names the size asked for, high byte first and at most 0x200; a refusal carries its error code as response code too, and 0xFF over that size |
| `CartAnswers.OpeningAnswers` | kern/cmd56/gc.c:14-29 | what START and the status are answered with, byte by byte |
| `CartAnswers.SessionKeyAnswer` | kern/cmd56/gc.c:31-93 | A1: the fields of the answer byte by byte, the thirteen fixed bytes of the cart random, and the session key kept for it |
| `CartAnswers.SharedRandomAnswer` | kern/cmd56/gc.c:95-129 | A2: the answer opens to the two halves of the shared random, the cart half first, and they are the halves kept; a refusal keeps nothing |
| `CartAnswers.SecondaryKeyAnswer` | kern/cmd56/gc.c:131-168 | A3: the secondary key is replaced by the one sent, accepted or not, and the lock follows the verdict |
| `CartAnswers.VerifyAnswer` | kern/cmd56/gc.c:170-192 | A4: the answer opens to eight random bytes, the challenge with its top bit set, the cart random and eight random bytes |
| `CartAnswers.Packet18Answer` | kern/cmd56/gc.c:222-243 | B1: an answer without error opens to the challenge that was sent and the packet 18 key, and the block behind it is the MAC of header and ciphertext |
| `CartAnswers.Packet20Answer` | kern/cmd56/gc.c:256-287 | C1: the answer opens to the padded challenge and the packet 20 key, and the block behind it is the MAC of header and ciphertext |
| `CartAnswers.RequestBuffer` | kern/cmd56/gc.c:139-211 | the buffer of the caller is left opened by A3 and by a B1 with a valid signature, and as it was otherwise |
| `CartLock.WrongMagic` | kern/cmd56/gc.c:382-387 | a request without the magic changes neither cart nor response |
| `CartLock.OnlyTheHeardCount` | kern/cmd56/gc.c:382-387 | any history leaves the cart as the history without the requests that lack the magic |
| `CartLock.OneCall` | kern/cmd56/gc.c:296-334 | no request changes key id or per-cart keys; only START and A3 touch the lock |
| `CartLock.LockHistory` | kern/cmd56/gc.c:131-168 | over any sequence of requests to a locked cart, it is unlocked exactly when the latest of START and A3 was an A3 that proved the shared random held then |
| `CartLock.LockSinceInit` | kern/cmd56/gc.c:361-390 | in particular from `gc_cmd56_init` on |
| `Vita.Wire.SendPacket` | kern/cmd56/vita.c:13-15 | one request out, one response in |
| `Vita.VitaState.StartRequest` | kern/cmd56/vita.c:22-39 | in place: judges the first two bytes, then the error code |
| `Vita.VitaState.GetStatus` | kern/cmd56/vita.c:41-50 | in place: stores the status reported |
| `Vita.VitaState.GetSessionKey` | kern/cmd56/vita.c:52-78 | in place: sends A1 |
| `Vita.VitaState.AcceptKeyId` | kern/cmd56/vita.c:58-77 | in place: stores key id and cart random, refuses ids above 0x8001 when the flag is set and ids without a seed, and expands the session key |
| `Vita.VitaState.ExchangeSharedRandom` | kern/cmd56/vita.c:80-134 | in place: sends the console part and accepts the cart part only if bytes 1 to 15 come back |
| `Vita.VitaState.GenerateSecondaryKeyAndVerifySession` | kern/cmd56/vita.c:136-169 | in place: sends secondary key and shared random sealed under the session key |
| `Vita.VitaState.VerifySecondaryKey` | kern/cmd56/vita.c:171-215 | in place: judges challenge echo and cart random |
| `Vita.VitaState.PreparePacket18` | kern/cmd56/vita.c:217-262 | in place: encrypts three blocks, then puts the signature of the first two over the third |
| `Vita.VitaState.GetPacket18Key` | kern/cmd56/vita.c:217-302 | in place: stores the key only after signature and echo |
| `Vita.VitaState.GetPacket20Key` | kern/cmd56/vita.c:304-363 | in place: stores the key only after signature and echo |
| `Vita.VitaState.CheckSignature` | kern/cmd56/vita.c:268-274 | true exactly when the block behind the data is their signature |
| `Vita.VitaState.Run` | kern/cmd56/vita.c:401-427 | `vita_cmd56_run`: result, state and far side are those of the ten-step specification, against any responder, for the blocks the generator delivers |
| `Vita.ScriptDraws` | kern/cmd56/vita.c:401-427 | the six random blocks of a run are the next six that the generator delivers, in order |
| `ConsolePackets.StepSends` | kern/cmd56/vita.c:22-312 | every request, field by field: sizes, expected response code, and what its data area holds or opens to; a B1 carries the MAC of header and first two blocks |
| `ConsolePackets.StepHalves` | kern/cmd56/vita.c:80-152 | only A2 and A3 touch the halves of the shared random: the block drawn and the block opened, and their top bits |
| `ConsolePackets.StepVerdict` | kern/cmd56/vita.c:22-363 | the return code of a step follows from the response by the tests in their order, each said by offsets, CBC and CMAC |
| `ConsolePackets.RunSends` | kern/cmd56/vita.c:401-427 | all requests of a run in terms of the keys the console holds at its end |
| `ConsolePackets.RunVerdict` | kern/cmd56/vita.c:401-427 | the return code of a run is the verdict on the last response |
| `ConsolePackets.ConsoleSends` | kern/cmd56/vita.c:401-427 | against an arbitrary responder every request is the one the protocol asks for, the return code is the verdict on the last response, and after A3 the two halves are the block of A2 and the block its answer opened to |
| `ConsolePackets.Challenges` | kern/cmd56/vita.c:171-312 | the challenges of A4, both B1 and C1 are four different draws with their top bits set, the first and last in the clear, the others under the secondary key |
| `Handshake.SessionKeyStep` | kern/cmd56/vita.c:52-78 | after A1 both sides hold the same key id, cart random and session key, if the console accepts the id; otherwise it reports an invalid id |
| `Handshake.SharedRandomStep` | kern/cmd56/vita.c:80-134 | after A2 both hold the same two halves of the shared random |
| `Handshake.SecondaryKeyStep` | kern/cmd56/vita.c:136-169 | after A3 the cart is unlocked and both hold the secondary key |
| `Handshake.VerifyStep` | kern/cmd56/vita.c:171-215 | the A4 answer of an honest cart is accepted |
| `Handshake.Packet18Step` | kern/cmd56/vita.c:217-302 | the B1 request is accepted by the cart and its answer by the console, which then holds the cart's packet 18 key |
| `Handshake.Packet20Step` | kern/cmd56/vita.c:304-363 | likewise for C1 and the packet 20 key |
| `Handshake.OpeningSteps` | kern/cmd56/vita.c:410-414 | what START, status and A1 establish together, from any two states |
| `Handshake.UnlockingSteps` | kern/cmd56/vita.c:415-419 | what A2, A3 and the second status establish together |
| `Handshake.KeySteps` | kern/cmd56/vita.c:421-426 | what A4, both B1 and C1 establish together |
| `Handshake.HonestRun` | kern/cmd56/vita.c:401-427 | an honest run returns GC_AUTH_OK exactly for the key ids the console accepts, from any states of the two sides and for all random bytes; then the cart is unlocked and both sides hold the same key id, per-cart keys, cart random, shared random, session key and secondary key |
| `Soundness.StepGenuine` | kern/cmd56/vita.c:22-363 | a step succeeds exactly when the packets that crossed the link meet its demand (error code, echo of the challenge, signature, status) |
| `Soundness.StepChanges` | kern/cmd56/vita.c:22-363 | what a step may change; the per-cart keys only with an accepted response that carries them |
| `Soundness.RunGenuine` | kern/cmd56/vita.c:401-427 | a run succeeds exactly when all its responses are genuine; otherwise all but the last one are |
| `Soundness.RunKeys` | kern/cmd56/vita.c:217-363 | each per-cart key after a run is that of the last accepted response carrying one, or the old one |
| `Soundness.ConsoleSoundness` | kern/cmd56/vita.c:401-427 | against an arbitrary responder the commands sent are a prefix of C4, C2, A1, A2, A3, C2, A4, B1, B1, C1; GC_AUTH_OK is returned exactly when all ten responses were genuine; the keys at the end are the decrypted fields of responses that were accepted |
| `AuthEmu.CapturedKeys` | kern/auth_emu.c:42-104 | over any sequence of authenticate, clear, enable and disable, the flag is set exactly when some run returned GC_AUTH_OK and nothing but disable came after it, and the state is then the one of that run; otherwise all of it is zero |
| `AuthEmu.ValidKeysAreGenuine` | kern/auth_emu.c:80-96 | keys that count as valid were carried by genuine responses of one complete exchange |
| `AuthEmu.HonestCartIsCaptured` | kern/auth_emu.c:65-104 | with a cart that follows the protocol, authentication returns 0 exactly for key ids 0x1 and 0x8001, and then the keys held are those of the cart |
| `AuthEmu.HooksInHand` | kern/auth_emu.c:166-199 | every hook installed and not released is the one in hand, but for one of id 0 for each enable that found id 0 in hand |
| `AuthEmu.AllInHand` | kern/auth_emu.c:166-199 | so all live hooks are in hand if and only if no enable found id 0 in hand |
| `AuthEmu.HookLost` | kern/auth_emu.c:172-172 | if two enables are given the ids 0 and 7, the first hook stays live whatever calls follow |
| `AuthEmu.HookAfter` | kern/auth_emu.c:166-199 | what each call does to the hook id |
| `AuthEmu.ResultOf` | kern/auth_emu.c:42-199 | what each call returns and does to the device context |
| `AuthEmu.Driver.ClearSecret` | kern/auth_emu.c:42-47 | zeroes the state and the flag |
| `AuthEmu.Driver.DisableGcEmuMgr` | kern/auth_emu.c:185-199 | releases the hook if there is one |
| `AuthEmu.Driver.EnableGcEmuMgr` | kern/auth_emu.c:166-183 | clears, and installs the hook if the id in hand is not positive |
| `AuthEmu.Driver.RunAuthentication` | kern/auth_emu.c:65-104 | clears, runs the exchange with the flag set, and keeps its result only on GC_AUTH_OK |
| `Sha256.MacrosAreSigmas` | app/sha256.c:21-29 | the rotation macros are the sigma functions of FIPS 180-4 section 4.1.2 |
| `ShaStandard.RoundConstants` | app/sha256.c:32-41 | entry i of `k` is the first 32 bits of the fractional part of the cube root of the i-th prime, for all 64 |
| `ShaStandard.InitialHash` | app/sha256.c:89-96 | the eight initial words are those of the square roots of the first eight primes |
| `ShaStandard.ChooseBits` | app/sha256.c:24-24 | bit by bit, `CH` takes y where x is set and z elsewhere |
| `ShaStandard.MajorityBits` | app/sha256.c:25-25 | bit by bit, `MAJ` is set where at least two of its arguments are |
| `ShaStandard.Sigmas` | app/sha256.c:26-29 | the four sigma functions by rotations and shifts |
| `ShaStandard.RoundEquations` | app/sha256.c:62-73 | the eight new working variables of a round in terms of the old ones |
| `ShaStandard.CompressEquations` | app/sha256.c:75-82 | the old hash value is added to the state after 64 rounds, word by word |
| `ShaStandard.PaddedMessage` | app/sha256.c:114-149 | the padded message: the message, 0x80, the fewest zeros that fill whole blocks, and eight bytes that are its length in bits |
| `ShaStandard.DigestWords` | app/sha256.c:150-157 | the digest is the eight words, most significant byte first |
| `Sha256.FillSchedule` | app/sha256.c:49-53 | the 64-word schedule of section 6.2.2 step 1 |
| `Sha256.Transform` | app/sha256.c:44-83 | the whole function is the compression of section 6.2.2 |
| `Sha256.BlocksAppend` | app/sha256.c:106-110 | appending a block to the message compresses once more |
| `Sha256.Ctx.constructor` | app/sha256.c:85-97 | the initial context stands for the empty message |
| `Sha256.Ctx.Absorb` | app/sha256.c:104-111 | one byte more in the message the context stands for |
| `Sha256.Ctx.Update` | app/sha256.c:99-112 | the context stands for everything fed so far, however it was cut into calls |
| `Sha256.WholeIs` | app/sha256.c:121-139 | where the padding ends in the current block and where it takes another one |
| `Sha256.PadIs` | app/sha256.c:121-149 | leftover, 0x80, zeros and length make up the padded message of section 5.1.1 |
| `Sha256.Ctx.PadShort` | app/sha256.c:121-127 | padding with up to 55 bytes left over |
| `Sha256.Ctx.PadLong` | app/sha256.c:128-136 | padding with 56 to 63 bytes left over |
| `Sha256.Ctx.CompressLast` | app/sha256.c:114-149 | the state ends as the hash value of the padded message |
| `Sha256.Ctx.StoreDigest` | app/sha256.c:150-157 | the words are written most significant byte first |
| `Sha256.Ctx.Final` | app/sha256.c:114-158 | for every message below 2^61 bytes the digest is SHA-256 of everything fed |
| `Transfer.DumpIsExact` | app/device.c:204-224 | a dump loop that reports success has written, and hashed, exactly what the device held, whatever short or failing transfers occurred |
| `Transfer.DumpSucceeds` | app/device.c:204-224 | and it reports success on a non-empty device if every transfer goes as far as it can |
| `Transfer.PumpCodes` | app/device.c:204-224 | the loop ends with 0, with the error code of one of its transfers, or with -9584 |
| `Transfer.WipeIsComplete` | app/device.c:204-230 | a wipe loop that reports success leaves only zeros |
| `Transfer.InStepRestores` | app/device.c:204-242 | a restore loop in which every pass leaves as much of the image read as of the device written ends with the image followed by zeros |
| `Transfer.FirstLost` | app/device.c:204-242 | a restore loop that reports success otherwise loses a byte of the image at a place that positions, lengths and transfers alone determine |
| `Transfer.RestoreSucceeds` | app/device.c:204-242 | it reports success whenever no read fails and every write moves something, however short they are |
| `Transfer.RestoreIsExact` | app/device.c:204-242 | with reads short only at the end of the image and writes only at the end of the device, the device ends as the image followed by zeros |
| `Images.FieldReadsBack` | app/device.c:101-102 | the eight bytes of a 64-bit header field, low byte first, are the number it was given |
| `Images.OnlyTheHashDiffers` | app/device.c:133-159 | writing 32 bytes at the offset of the hash field changes that field of a PSV header and nothing else |
| `Images.HashIsPatched` | app/device.c:133-159 | patching the digest into a finished file leaves the rest of it as it was |
| `Images.DumpedImage` | app/device.c:284-315 | a physical dump that reports success leaves exactly the header, for a PSV with the SHA-256 of the data, and the data of the device |
| `Images.PsvReadsBack` | app/device.c:84-108 | read back by its fields, a PSV image gives the magic, version 1, flags 0, the secret, the packet 20 hash, the size, the sector 1 where the data starts, the padding, the data, and their SHA-256 |
| `Images.VciReadsBack` | app/device.c:111-128 | read back by its fields, a VCI image gives the magic, the two versions, the size, the packet 20 key at 0x10, the packet 18 key at 0x30, zeros, and the data at 0x200 |
| `Images.RawReadsBack` | app/device.c:183-200 | a raw image is the data |
| `Images.PatchResult` | app/device.c:133-174 | what a failed seek and each failure of the write are reported as |
| `Images.DumpWorks` | app/device.c:284-315 | a non-empty device is dumped with success if every transfer goes as far as it can |
| `Images.NothingToDump` | app/device.c:290-292 | an empty or unopened device is never reported as dumped, although the open is not checked; the exact result, by what became of the image file, the header and the first read |
| `Images.RestoredExactly` | app/device.c:343-383 | with both sides opened and an image that fits, a restore reports success and is exact for every image of that length if and only if every pass of the loop leaves as much of the image read as of the device written |
| `Images.RestoredDevice` | app/device.c:343-383 | an image that does not fit gives -9686 and an unopened side gives the descriptor of the image, with the device as it was; otherwise the result is 0 or an error, the device holds the image if the run was in step, and a result of 0 out of step means that some image of that length is not restored |
| `Images.RestoreWorks` | app/device.c:343-383 | if every transfer goes as far as it can, an image that fits is restored onto a non-empty device that could be opened |
| `Images.ShortReadSpoils` | app/device.c:232-242 | a first read that is short before the end of the image, with full writes, gives result 0 and loses some image of that length |
| `Images.ShortWriteSpoils` | app/device.c:213-217 | so does a first write that is short before the end of the image, with full reads |
| `Images.CutTogether` | app/device.c:204-242 | a first read and a first write that are cut at the same byte do no harm |
| `Images.ShortReadGoesUnnoticed` | app/device.c:232-242 | a two-byte image whose first read moves one byte: result 0, and a device that differs |
| `Images.ShortWriteGoesUnnoticed` | app/device.c:213-217 | the same image with a first write that moves one byte |
| `Images.WipedDevice` | app/device.c:385-413 | a wipe that reports success leaves zeros, and a non-empty device is wiped with success if every write goes as far as it can |
| `Images.DumpThenRestore` | app/device.c:204-413 | a successful raw dump followed by a restore in step onto a device of the same size brings back the contents |
| `Images.DumpThenSmoothRestore` | app/device.c:204-413 | in particular if every transfer of the restore goes as far as it can |
| `Device.ReadNull` | app/device.c:227-230 | fills the buffer with zeros |
| `Device.ReadDataFromImage` | app/device.c:232-242 | fills up a short read with zeros and claims the full size |
| `Device.BuildPsv` | app/device.c:86-102 | the 512 bytes of a PSV header before its hash is known |
| `Device.BuildVci` | app/device.c:112-121 | the 512 bytes of a VCI header |
| `Device.BackupState.constructor` | app/device.c:36-82 | sizes by format, hashing for PSV only |
| `Device.BackupState.Pass` | app/device.c:207-221 | one pass of the loop: read, hash, write, count |
| `Device.BackupState.AccessLoop` | app/device.c:204-224 | the loop ends, and does what the specification of the copy engine says, for each read function |
| `Device.BackupState.CreateHeader` | app/device.c:183-200 | writes the header of the format and checks how much was written |
| `Device.BackupState.FinalizePsvHeader` | app/device.c:133-159 | seeks to the hash field and writes the digest over it; a failed seek or a short write is reported |
| `Device.DumpDevicePhys` | app/device.c:284-315 | header, loop and patch in one run |
| `Device.RestoreDeviceFrom` | app/device.c:343-383 | size check, opens and loop |
| `Device.WipeDeviceOf` | app/device.c:385-413 | open and loop |
| `Ime.DecodeEncode` | app/ime.c:19-59 | UTF-16 to UTF-8 and back is the identity on exactly the zero-free texts in which no high surrogate is directly followed by a low one; the number of units never changes |
| `Ime.EncodeDecode` | app/ime.c:19-59 | UTF-8 to UTF-16 and back is the identity on exactly the strings of shortest forms that decode to no surrogate pair |
| `Ime.WellFormedRoundTrip` | app/ime.c:19-59 | in particular on every well-formed string of RFC 3629 with characters of one to three bytes |
| `Ime.EncodeIsWellFormed` | app/ime.c:19-41 | what is written for a text without surrogates is well formed |
| `Ime.Encode` | app/ime.c:19-41 | at most three bytes are written per unit |
| `Ime.PairDecodes` | app/ime.c:27-32 | the four bytes of a pair read back as a unit below 0x4000 and one more |
| `Ime.ReadsTheNumber` | app/ime.c:46-55 | a character of one to three bytes is read as its character number by section 3 of RFC 3629 |
| `Ime.WritesTheNumber` | app/ime.c:22-37 | and a unit on its own is written as the character with its number |
| `Ime.PairBytes` | app/ime.c:27-31 | which of the four bytes of a pair are those of RFC 3629, and what the third is instead |
| `Ime.PairIsUtf8` | app/ime.c:27-31 | a pair is written as the UTF-8 of its character exactly when the high unit is below 0xDBC0 and three bit fields of the two units coincide |
| `Ime.ReadsToTheTerminator` | app/ime.c:43-59 | a complete string in front of a NUL is read to its end and no further |
| `Ime.EncodeUnit` | app/ime.c:22-38 | the four branches |
| `Ime.DecodeUnit` | app/ime.c:46-55 | the three branches |
| `Ime.Utf16ToUtf8` | app/ime.c:19-41 | the loop writes the encoding of the text and a terminator, and nothing behind it |
| `Ime.Utf8ToUtf16` | app/ime.c:43-59 | the loop writes the units of the string it takes and a terminator, and nothing behind it |

## Left out

- AES-192, AES-256 and CTR: compiled out or unused. An AES context is a value, its 176 bytes of round keys.
- `gc_cmd56_run_in_place`, `gc_cmd56_update_keyid` and the getters: copies around what is modelled. It is `Gc.GcState.Run` that is called, with key ids as arbitrary fields.
- Gc.GcState.Run: for commands that can be answered with an error, requires an expected response size of at most 0x1f5, the size of the response data; beyond it `cmd56_response_error` writes past the structure.
- Cmac.MacBuffer: requires lengths for which the 32-bit counter of the loop does not wrap around, and a partial last block to be readable in full, as the code reads it.
- Packed structures: fields are at the offsets the code gives them; the `send` and `recv` pointers of the console state are the link of the model, and packet sizes are naturals.
- `USE_PS3_MODE`, `rand_uint32` and the start-up seeding of the generator: not used by the exchange.
- Cryptographic strength: agreement, round trips and what is checked are proved, not secrecy or unforgeability.
- The trimmed formats and `get_trimmed_size`: its last test returns the full size whenever a partition was found.
- The network dump and its hash patch over a second connection: concurrent with the first transfer. Only physical dumps are modelled.
- Device and file calls: a plan of short or failing transfers stands for the system; a descriptor that is negative fails every transfer with itself as the code. Paths, permissions, the whitelist, progress callbacks and module checks are not part of this model.
- `sceIoRemove` after a failed dump: nothing is said about the file when the result is negative.
- `setup_state` failures: sizes are taken to be reported correctly; `kGetDeviceSize` returns no value on its successful path.
- SHA-1 and SHA-256 of the per-cart keys, computed by the kernel: 20 and 32 arbitrary bytes in the PSV header.
- The commands and answers of the kernel around `auth_emu.c` are parameters of each call; `k_check_hash` and the getters are left out.
- Ime.Utf8ToUtf16: requires the memory behind a string whose last character is cut off to be readable up to where the decoder stops, since it reads past the terminator there.
- Drawing, menus, configuration, `sfo.c`, `gc_ident.c`, formatting, mounting, kernel hooks other than the authentication one: interface and platform calls, or short lookups that would add only easy members.
