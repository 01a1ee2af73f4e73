/** Key derivation and packet signatures (cmd56_sm.c). */
module Cmd56Sm {
  import opened Bytes
  import Fips = Fips197
  import Cbc
  import Cmac
  import opened Cmd56

  datatype Option<+T> = None | Some(value: T)

  // AES-128 uses the first half of this key.
  const BIGMAC_KEY_0x348: Bytes32 := [
    0xC0, 0x26, 0x28, 0x14, 0x13, 0xFA, 0x46, 0x2C, 0xCD, 0xEE, 0xD4, 0xBD, 0x6D, 0x08, 0xC3, 0x7C,
    0xA6, 0xC9, 0x32, 0x2A, 0xBD, 0x4C, 0x40, 0xAD, 0xE7, 0x2A, 0x0F, 0x54, 0x4F, 0x40, 0x13, 0xAD]
  const GCAUTHMGR_0x8001_KEY: Block := [
    0xCB, 0x80, 0x8D, 0x14, 0x02, 0x62, 0x53, 0x17, 0x25, 0x24, 0xD8, 0xA1, 0xF5, 0x1D, 0x35, 0xC7]
  const GCAUTHMGR_0x8002_KEY: Block := [
    0x56, 0xB6, 0x7B, 0xE1, 0x00, 0x03, 0xB4, 0x3B, 0xB8, 0x24, 0xD7, 0x06, 0xEE, 0x93, 0x59, 0x9D]
  const GCAUTHMGR_0x8003_KEY: Block := [
    0xE8, 0xBD, 0xDA, 0xFB, 0xF4, 0xA3, 0xB9, 0x9B, 0x54, 0x56, 0x2C, 0x68, 0x21, 0xD8, 0x05, 0x1E]
  const GCAUTHMGR_0x1_KEY: Block := [
    0x72, 0x50, 0x6A, 0x4B, 0xA8, 0x36, 0xC8, 0x76, 0xC4, 0x48, 0x40, 0x70, 0x1F, 0x0E, 0xA1, 0x02]
  const GCAUTHMGR_0x1_IV: Block := [
    0x8B, 0x14, 0xC8, 0xA1, 0xE9, 0x6F, 0x30, 0xA7, 0xF1, 0x01, 0xA9, 0x6A, 0x30, 0x33, 0xC5, 0x5B]

  const RETAIL_KEY_ID: bv16 := 0x1
  const PROTOTYPE_KEY_ID1: bv16 := 0x8001
  const PROTOTYPE_KEY_ID2: bv16 := 0x8002
  const PROTOTYPE_KEY_ID3: bv16 := 0x8003

  function KeySeed(keyId: bv16): Option<Block> {
    if keyId == PROTOTYPE_KEY_ID1 then Some(GCAUTHMGR_0x8001_KEY)
    else if keyId == PROTOTYPE_KEY_ID2 then Some(GCAUTHMGR_0x8002_KEY)
    else if keyId == PROTOTYPE_KEY_ID3 then Some(GCAUTHMGR_0x8003_KEY)
    else if keyId == RETAIL_KEY_ID then Some(GCAUTHMGR_0x1_KEY)
    else None
  }

  function RandomMac(cartRandom: Bytes32, seed: Block): (mac: Block) {
    Cmac.Mac(Fips.KeyExpansion(seed), cartRandom)
  }

  function RetailKey(mac: Block): (k: Block) {
    Cbc.Decrypt(Fips.KeyExpansion(BIGMAC_KEY_0x348[..0x10]), GCAUTHMGR_0x1_IV, mac)
  }

  /** The MAC of the cart's challenge under the key of the key id; for retail carts decrypted once more. */
  function SessionKey(cartRandom: Bytes32, keyId: bv16): (k: Option<Block>) {
    match KeySeed(keyId)
    case None => None
    case Some(seed) =>
      var mac := RandomMac(cartRandom, seed);
      Some(if keyId == RETAIL_KEY_ID then RetailKey(mac) else mac)
  }

  lemma KnownKeyIds(cartRandom: Bytes32, keyId: bv16)
    ensures SessionKey(cartRandom, keyId).Some? <==>
      keyId == 0x1 || keyId == 0x8001 || keyId == 0x8002 || keyId == 0x8003
  {
    hide Cmac.Mac, Cbc.Decrypt, Fips.KeyExpansion;
  }

  /** One block in CBC under the first half of the big key. */
  function UnderBigKey(k: Block): (c: Block) {
    Cbc.Encrypt(Fips.KeyExpansion(BIGMAC_KEY_0x348[..0x10]), GCAUTHMGR_0x1_IV, k)
  }

  lemma UnderBigKeyInverse(b: Block)
    ensures UnderBigKey(RetailKey(b)) == b && RetailKey(UnderBigKey(b)) == b
  {
    hide Cbc.Decrypt, Cbc.Encrypt, Fips.KeyExpansion, BIGMAC_KEY_0x348, GCAUTHMGR_0x1_IV;
    Cbc.EncryptDecrypt(Fips.KeyExpansion(BIGMAC_KEY_0x348[..0x10]), GCAUTHMGR_0x1_IV, b);
    Cbc.DecryptEncrypt(Fips.KeyExpansion(BIGMAC_KEY_0x348[..0x10]), GCAUTHMGR_0x1_IV, b);
  }

  /** The session key of a retail cart is the block that the big key encrypts to the MAC of the cart's challenge. */
  lemma RetailSessionKey(cartRandom: Bytes32, k: Block)
    ensures SessionKey(cartRandom, 0x1) == Some(k)
      <==> UnderBigKey(k) == Cmac.Mac(Fips.KeyExpansion(GCAUTHMGR_0x1_KEY), cartRandom)
  {
    hide Cmac.Mac, UnderBigKey, RetailKey, Fips.KeyExpansion, GCAUTHMGR_0x1_KEY, GCAUTHMGR_0x8001_KEY,
      GCAUTHMGR_0x8002_KEY, GCAUTHMGR_0x8003_KEY;
    UnderBigKeyInverse(RandomMac(cartRandom, GCAUTHMGR_0x1_KEY));
    UnderBigKeyInverse(k);
  }

  /** The session keys of the three prototype ids are the MACs under their seeds. */
  lemma PrototypeSessionKeys(cartRandom: Bytes32)
    ensures SessionKey(cartRandom, 0x8001) == Some(Cmac.Mac(Fips.KeyExpansion(GCAUTHMGR_0x8001_KEY), cartRandom))
    ensures SessionKey(cartRandom, 0x8002) == Some(Cmac.Mac(Fips.KeyExpansion(GCAUTHMGR_0x8002_KEY), cartRandom))
    ensures SessionKey(cartRandom, 0x8003) == Some(Cmac.Mac(Fips.KeyExpansion(GCAUTHMGR_0x8003_KEY), cartRandom))
  {
    hide Cmac.Mac, Cbc.Decrypt, Fips.KeyExpansion, GCAUTHMGR_0x8001_KEY, GCAUTHMGR_0x8002_KEY, GCAUTHMGR_0x8003_KEY,
      GCAUTHMGR_0x1_KEY;
  }

  /** What is signed: three header bytes in a block of their own, then the data. */
  function SignedMessage(header: bytes, data: bytes): (m: bytes)
    requires |header| == 3
    ensures |m| == 16 + |data|
  {
    header + Zeros(13) + data
  }

  function Signature(w: Fips.RoundKeys, header: bytes, data: bytes): (t: Block)
    requires |header| == 3
  {
    Cmac.Mac(w, SignedMessage(header, data))
  }

  /** What AES_CMAC_buffer makes of the message, whatever its size. */
  function CmacHash(w: Fips.RoundKeys, header: bytes, data: bytes): (t: Block)
    requires |header| == 3
  {
    Cmac.BufferMac(w, SignedMessage(header, data))
  }

  /** For whole blocks that is the signature. */
  lemma WholeSignature(w: Fips.RoundKeys, header: bytes, data: bytes)
    requires |header| == 3 && |data| % 16 == 0
    ensures CmacHash(w, header, data) == Signature(w, header, data)
  {
    hide Cmac.Mac, Cmac.BufferMac;
    Cmac.WholeBlocks(w, SignedMessage(header, data));
  }

  // ----- encrypt_cbc_zero_iv and decrypt_cbc_zero_iv -----

  function Seal(w: Fips.RoundKeys, p: bytes): (c: bytes)
    requires |p| % 16 == 0
    ensures |c| == |p|
  {
    Cbc.Encrypt(w, ZERO_BLOCK, p)
  }

  function Open(w: Fips.RoundKeys, c: bytes): (p: bytes)
    requires |c| % 16 == 0
    ensures |p| == |c|
  {
    Cbc.Decrypt(w, ZERO_BLOCK, c)
  }

  lemma OpenSealed(w: Fips.RoundKeys, p: bytes, n: nat)
    requires |p| % 16 == 0 && n % 16 == 0 && n <= |p|
    ensures Open(w, Seal(w, p)) == p
    ensures Open(w, Seal(w, p)[..n]) == p[..n]
  {
    hide Cbc.Encrypt, Cbc.Decrypt;
    Cbc.DecryptEncrypt(w, ZERO_BLOCK, p);
    Cbc.DecryptPrefix(w, ZERO_BLOCK, p, n);
  }

  /** derive_session_key; without a key for the key id the output stays as it was. */
  method DeriveSessionKey(sessionKeyOut: array<bv8>, cartRandom: Bytes32, keyId: bv16) returns (ok: bool)
    requires sessionKeyOut.Length == 0x10
    modifies sessionKeyOut
    ensures ok == SessionKey(cartRandom, keyId).Some?
    ensures sessionKeyOut[..] == if ok then SessionKey(cartRandom, keyId).value else old(sessionKeyOut[..])
  {
    hide Cmac.Mac, Cmac.BufferMac, Cbc.Decrypt, Fips.KeyExpansion, Splice;
    match KeySeed(keyId)
    case None =>
      ok := false;
    case Some(keyseed) =>
      var input := new bv8[0x20](i requires 0 <= i < 0x20 => cartRandom[i]);
      assert input[..] == cartRandom && cartRandom[0..0x20] == cartRandom;
      Cmac.WholeBlocks(Fips.KeyExpansion(keyseed), cartRandom);
      WholeOutput(sessionKeyOut[..], Cmac.Mac(Fips.KeyExpansion(keyseed), cartRandom));
      Cmac.MacBufferKey(keyseed, input, 0, 0x20, sessionKeyOut, 0);
      if keyId == 0x1 {
        ghost var mac: Block := sessionKeyOut[..];
        assert mac[0..0x10] == mac;
        Cbc.DecryptBufferKey(BIGMAC_KEY_0x348[..0x10], sessionKeyOut, 0, 0x10, GCAUTHMGR_0x1_IV);
        WholeOutput(mac, Cbc.Decrypt(Fips.KeyExpansion(BIGMAC_KEY_0x348[..0x10]), GCAUTHMGR_0x1_IV, mac));
      }
      ok := true;
  }

  lemma WholeOutput(s: bytes, b: bytes)
    requires |s| == |b|
    ensures Splice(s, 0, b) == b
  {
  }

  /** do_cmd56_cmac_hash. The buffer holds at most 0x50 bytes. */
  method DoCmacHash(w: Fips.RoundKeys, data: array<bv8>, at: nat, header: bytes, output: array<bv8>, outputAt: nat,
                    size: nat)
    requires |header| == 3 && size <= 0x40
    requires at + size <= data.Length && outputAt + 0x10 <= output.Length
    modifies output
    ensures output[..] == Splice(old(output[..]), outputAt, CmacHash(w, header, old(data[..])[at..at + size]))
  {
    hide Cmac.Mac, Cmac.BufferMac, Splice;
    ghost var d := data[..][at..at + size];
    var cmacInput := new bv8[0x50](_ => 0);
    assert cmacInput[..] == Zeros(0x50);
    Copy(cmacInput, 0, header);
    Copy(cmacInput, 0x10, data[at..at + size]);
    InputIs(header, d, cmacInput[..]);
    Cmac.MacBuffer(w, cmacInput, 0, size + 0x10, output, outputAt);
  }

  lemma InputIs(header: bytes, d: bytes, input: bytes)
    requires |header| == 3 && |d| <= 0x40
    requires input == Splice(Splice(Zeros(0x50), 0, header), 0x10, d)
    ensures input[0..|d| + 0x10] == SignedMessage(header, d)
  {
  }
}
