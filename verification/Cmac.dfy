/** AES-CMAC: the MAC of RFC 4493 on values, what aes_cmac.c computes, and exactly when the two agree. */
module Cmac {
  import opened Bytes
  import opened Fips = Fips197
  import Aes

  // ----- RFC 4493, section 2.3: subkeys -----

  /** A block as the 128-bit string it stands for, first byte first. */
  function Bits(b: Block): bv128 {
    ((b[0] as bv128) << 120) | ((b[1] as bv128) << 112) | ((b[2] as bv128) << 104) | ((b[3] as bv128) << 96) |
    ((b[4] as bv128) << 88) | ((b[5] as bv128) << 80) | ((b[6] as bv128) << 72) | ((b[7] as bv128) << 64) |
    ((b[8] as bv128) << 56) | ((b[9] as bv128) << 48) | ((b[10] as bv128) << 40) | ((b[11] as bv128) << 32) |
    ((b[12] as bv128) << 24) | ((b[13] as bv128) << 16) | ((b[14] as bv128) << 8) | (b[15] as bv128)
  }

  /** Doubling in GF(2^128) modulo x^128 + x^7 + x^2 + x + 1. */
  function Double(x: bv128): bv128 {
    if Overflows(x) then Reduced(x << 1) else x << 1
  }

  predicate Overflows(x: bv128) {
    x & 0x8000_0000_0000_0000_0000_0000_0000_0000 != 0
  }

  function Reduced(x: bv128): bv128 {
    x ^ 0x87
  }

  function ShiftByte(x: bv8, next: bv8): bv8 {
    (x << 1) | (next >> 7)
  }

  function ShiftedLeft(b: Block): (c: Block) {
    seq(16, i requires 0 <= i < 16 => ShiftByte(b[i], if i < 15 then b[i + 1] else 0))
  }

  /** One half of gen_subkey: shift, and fold the lost bit back into the last byte. */
  function Doubled(b: Block): (c: Block) {
    var c := ShiftedLeft(b);
    if b[0] & 0x80 == 0 then c else c[15 := c[15] ^ 0x87]
  }

  /** left_shift doubles the value of the block modulo 2^128. */
  lemma ShiftIsTimesTwo(b: Block)
    ensures Bits(ShiftedLeft(b)) == 2 * Bits(b)
    ensures Bits(ShiftedLeft(b)) == Bits(b) << 1
  {
    BitsShifted(b);
    TimesTwo(Bits(b));
  }

  lemma BitsShifted(b: Block)
    ensures Bits(ShiftedLeft(b)) == Bits(b) << 1
  {
  }

  lemma TimesTwo(x: bv128)
    ensures x << 1 == 2 * x
  {
  }

  lemma LastByteXor(b: Block)
    ensures Bits(b[15 := b[15] ^ 0x87]) == Reduced(Bits(b))
  {
  }

  lemma TopBit(b: Block)
    ensures Overflows(Bits(b)) <==> b[0] & 0x80 != 0
  {
  }

  lemma BitsInjective(b: Block, c: Block)
    requires Bits(b) == Bits(c)
    ensures b == c
  {
  }

  /** The bytewise shift with its conditional 0x87 is doubling in the field. */
  lemma DoubledIsDouble(b: Block)
    ensures Bits(Doubled(b)) == Double(Bits(b))
  {
    hide Bits, ShiftedLeft, Reduced, Overflows;
    ShiftIsTimesTwo(b);
    LastByteXor(ShiftedLeft(b));
    TopBit(b);
  }

  function Subkey1(w: RoundKeys): (k: Block) {
    Doubled(Cipher(ZERO_BLOCK, w))
  }

  function Subkey2(w: RoundKeys): (k: Block) {
    Doubled(Subkey1(w))
  }

  /** K1 and K2 are L = AES(K, 0) doubled once and twice; no other blocks are. */
  lemma Subkeys(w: RoundKeys, k1: Block, k2: Block)
    ensures (k1 == Subkey1(w) && k2 == Subkey2(w))
      <==> (Bits(k1) == Double(Bits(Cipher(ZERO_BLOCK, w))) && Bits(k2) == Double(Double(Bits(Cipher(ZERO_BLOCK, w)))))
  {
    hide Bits, Doubled, Double, Cipher;
    var l := Cipher(ZERO_BLOCK, w);
    DoubledIsDouble(l);
    DoubledIsDouble(Doubled(l));
    if Bits(k1) == Double(Bits(l)) && Bits(k2) == Double(Double(Bits(l))) {
      BitsInjective(k1, Subkey1(w));
      BitsInjective(k2, Subkey2(w));
    }
  }

  // ----- RFC 4493, section 2.4: the MAC -----

  /** X after whole blocks of message. */
  function Chain(w: RoundKeys, x: Block, m: bytes): (y: Block)
    requires |m| % 16 == 0
    decreases |m|
  {
    if m == [] then x else Chain(w, Cipher(Xor(m[..16], x), w), m[16..])
  }

  function Pad(last: bytes): (b: Block)
    requires |last| < 16
  {
    last + [0x80] + Zeros(15 - |last|)
  }

  /** How much of a message comes before its last block. */
  function Before(length: nat): (n: nat)
    ensures n % 16 == 0 && n <= length && length - n <= 16 && (length > 0 ==> n < length)
  {
    if length == 0 then 0 else (length - 1) / 16 * 16
  }

  function Mac(w: RoundKeys, m: bytes): (t: Block) {
    var n := Before(|m|);
    var last := m[n..];
    var mLast := if |last| == 16 then Xor(last, Subkey1(w)) else Xor(Pad(last), Subkey2(w));
    Cipher(Xor(mLast, Chain(w, ZERO_BLOCK, m[..n])), w)
  }

  // ----- aes_cmac.c, for every length -----

  /** The block that the loop encrypts last: the padding goes in after the chaining. */
  function LastTemp(last: bytes, x: Block, k1: Block, k2: Block): (b: Block)
    requires 0 < |last| <= 16
  {
    if |last| == 16 then Xor(Xor(last, x), k1) else Xor(Pad(Xor(last, x[..|last|])), k2)
  }

  function BufferMac(w: RoundKeys, m: bytes): (t: Block) {
    if m == [] then ZERO_BLOCK else
      var n := Before(|m|);
      Cipher(LastTemp(m[n..], Chain(w, ZERO_BLOCK, m[..n]), Subkey1(w), Subkey2(w)), w)
  }

  lemma XorSwap(a: Block, b: Block, c: Block)
    ensures Xor(Xor(a, b), c) == Xor(Xor(a, c), b)
  {
    forall i | 0 <= i < 16 ensures Xor(Xor(a, b), c)[i] == Xor(Xor(a, c), b)[i] {
      XorByteSwap(a[i], b[i], c[i]);
    }
  }

  lemma XorByteSwap(x: bv8, y: bv8, z: bv8)
    ensures (x ^ y) ^ z == (x ^ z) ^ y
  {
  }

  lemma CipherInjective(a: Block, b: Block, w: RoundKeys)
    ensures Cipher(a, w) == Cipher(b, w) <==> a == b
  {
    hide Cipher, InvCipher;
    CipherInverse(a, w);
    CipherInverse(b, w);
  }

  /** For a message of one or more whole blocks the code computes the MAC of RFC 4493. */
  lemma WholeBlocks(w: RoundKeys, m: bytes)
    requires |m| > 0 && |m| % 16 == 0
    ensures BufferMac(w, m) == Mac(w, m)
  {
    hide Cipher, Xor, Chain, Doubled;
    var n := Before(|m|);
    XorSwap(m[n..], Chain(w, ZERO_BLOCK, m[..n]), Subkey1(w));
  }

  // ----- partial and empty messages -----

  lemma PartialTemps(last: bytes, x: Block, k2: Block)
    requires 0 < |last| < 16
    ensures LastTemp(last, x, k2, k2) == Xor(Xor(Pad(last), k2), x) <==> x[|last|..] == Zeros(16 - |last|)
  {
    var r := |last|;
    var code, rfc := LastTemp(last, x, k2, k2), Xor(Xor(Pad(last), k2), x);
    forall i | 0 <= i < 16
      ensures i < r ==> code[i] == rfc[i]
      ensures i >= r ==> (code[i] == rfc[i] <==> x[i] == 0)
    {
      if i < r {
        XorByteSwap(last[i], x[i], k2[i]);
      } else {
        XorByteSame(Pad(last)[i], k2[i], x[i]);
      }
    }
    if x[r..] == Zeros(16 - r) {
      forall i | 0 <= i < 16 ensures code[i] == rfc[i] {
        if i >= r { assert x[i] == x[r..][i - r]; }
      }
    } else {
      var j :| 0 <= j < 16 - r && x[r..][j] != 0;
      assert x[r + j] != 0;
      assert code[r + j] != rfc[r + j];
    }
  }

  lemma XorByteSame(p: bv8, k: bv8, x: bv8)
    ensures p ^ k == (p ^ k) ^ x <==> x == 0
  {
  }

  /** The two MACs of a non-empty message agree if and only if its last block is whole or the chaining value has
    * nothing but zeros under the padding.
    */
  lemma AgreesExactly(w: RoundKeys, m: bytes)
    requires |m| > 0
    ensures BufferMac(w, m) == Mac(w, m) <==>
      (|m| % 16 == 0 || Chain(w, ZERO_BLOCK, m[..Before(|m|)])[|m| % 16..] == Zeros(16 - |m| % 16))
  {
    hide Cipher, Xor, Chain, Doubled, Pad;
    if |m| % 16 == 0 {
      WholeBlocks(w, m);
    } else {
      var n := Before(|m|);
      var x, k1, k2 := Chain(w, ZERO_BLOCK, m[..n]), Subkey1(w), Subkey2(w);
      assert |m[n..]| == |m| % 16;
      PartialTemps(m[n..], x, k2);
      CipherInjective(LastTemp(m[n..], x, k1, k2), Xor(Xor(Pad(m[n..]), k2), x), w);
    }
  }

  lemma {:induction false} ChainAppend(w: RoundKeys, x: Block, m: bytes, block: Block)
    requires |m| % 16 == 0
    ensures Chain(w, x, m + block) == Cipher(Xor(block, Chain(w, x, m)), w)
    decreases |m|
  {
    hide Cipher, Xor;
    var b: bytes := block;
    if m == [] {
      assert m + b == b && b[..16] == b && b[16..] == [];
    } else {
      assert (m + b)[..16] == m[..16] && (m + b)[16..] == m[16..] + b;
      ChainAppend(w, Cipher(Xor(m[..16], x), w), m[16..], block);
    }
  }

  /** A message of length n with ones in the chaining value before its last block. */
  function Spoiler(w: RoundKeys, n: nat): (m: bytes)
    requires n > 16 && n % 16 != 0
    ensures |m| == n
  {
    var k := n / 16 - 1;
    var zeros := Zeros(16 * k);
    zeros + Xor(InvCipher(Ones(), w), Chain(w, ZERO_BLOCK, zeros)) + Zeros(n % 16)
  }

  function Ones(): Block {
    seq(16, _ => 0xff)
  }

  lemma SpoilerFails(w: RoundKeys, n: nat)
    requires n > 16 && n % 16 != 0
    ensures BufferMac(w, Spoiler(w, n)) != Mac(w, Spoiler(w, n))
  {
    hide Cipher, InvCipher, Chain, Xor, Mac, BufferMac, Ones;
    var zeros, m := Zeros(16 * (n / 16 - 1)), Spoiler(w, n);
    var x := Chain(w, ZERO_BLOCK, zeros);
    var block: Block := Xor(InvCipher(Ones(), w), x);
    assert Before(n) == |zeros| + 16 && m[..|zeros| + 16] == zeros + block;
    ChainAppend(w, ZERO_BLOCK, zeros, block);
    XorCancels(InvCipher(Ones(), w), x);
    CipherInverse(Ones(), w);
    OnesAreNotZeros(n % 16);
    AgreesExactly(w, m);
  }

  lemma OnesAreNotZeros(i: nat)
    requires i < 16
    ensures Ones()[i..] != Zeros(16 - i)
  {
    assert Ones()[i..][0] == 0xff;
  }

  /** The code computes the MAC of RFC 4493 for all messages of a length if and only if the length is a multiple of 16
    * or below 16.
    */
  lemma LengthDecides(w: RoundKeys, n: nat)
    requires n > 0
    ensures (forall m: bytes | |m| == n :: BufferMac(w, m) == Mac(w, m)) <==> n % 16 == 0 || n < 16
  {
    hide Cipher, InvCipher, Mac, BufferMac, Spoiler;
    if n % 16 == 0 || n < 16 {
      forall m: bytes | |m| == n ensures BufferMac(w, m) == Mac(w, m) {
        if n < 16 {
          ShortMessages(w, m);
        } else {
          WholeBlocks(w, m);
        }
      }
    } else {
      SpoilerFails(w, n);
    }
  }

  /** So every message of at most one block is served correctly ... */
  lemma ShortMessages(w: RoundKeys, m: bytes)
    requires 0 < |m| <= 16
    ensures BufferMac(w, m) == Mac(w, m)
  {
    hide Cipher, Xor, Mac, BufferMac;
    AgreesExactly(w, m);
    assert m[..0] == [];
    if |m| < 16 {
      assert ZERO_BLOCK[|m|..] == Zeros(16 - |m|);
    }
  }

  /** ... while under every key some 17-byte message is not: one whose first block encrypts to all ones. */
  lemma PartialBlockFails(w: RoundKeys)
    ensures var ones: Block := seq(16, _ => 0xff);
      var m := InvCipher(ones, w) + [0x00];
      BufferMac(w, m) != Mac(w, m)
  {
    hide Cipher, InvCipher, Mac, BufferMac;
    var ones: Block := seq(16, _ => 0xff);
    var first: bytes := InvCipher(ones, w);
    var m := first + [0x00];
    AgreesExactly(w, m);
    assert Before(17) == 16 && m[..16] == first;
    CipherInverse(ones, w);
    assert first[..16] == first && first[16..] == [];
    XorZero(first);
    assert Chain(w, ZERO_BLOCK, first) == ones;
    assert ones[1..][0] == 0xff && Zeros(15)[0] == 0;
  }

  /** The empty message gets an all-zero MAC, which RFC 4493 assigns to it only under keys that decrypt zero to the
    * padded empty block plus K2.
    */
  lemma EmptyMessage(w: RoundKeys)
    ensures BufferMac(w, []) == Mac(w, []) <==> InvCipher(ZERO_BLOCK, w) == Xor(Pad([]), Subkey2(w))
  {
    hide Cipher, InvCipher, Doubled, Pad;
    var y: Block := Xor(Pad([]), Subkey2(w));
    CipherInverse(y, w);
    CipherInverse(ZERO_BLOCK, w);
    XorZero(y);
    assert Before(0) == 0;
    assert Mac(w, []) == Cipher(y, w);
  }

  // ----- aes_cmac.c, in place -----

  function Carry(x: bv8): bv8 {
    x >> 7
  }

  lemma ShiftedAt(b: Block, i: nat)
    requires i < 16
    ensures ShiftedLeft(b)[i] == ShiftByte(b[i], if i < 15 then b[i + 1] else 0)
  {
  }

  lemma ShiftParts(x: bv8, next: bv8)
    ensures ShiftByte(x, next) == (x << 1) | Carry(next)
    ensures Carry(x) == (x >> 7) & 1 && Carry(0) == 0
  {
  }

  method LeftShift(dest: array<bv8>, src: array<bv8>)
    requires dest.Length == 16 && src.Length == 16 && dest != src
    modifies dest
    ensures dest[..] == ShiftedLeft(src[..])
  {
    hide ShiftByte, Carry, ShiftedLeft;
    ghost var s: Block := src[..];
    ghost var goal := ShiftedLeft(s);
    var overflow: bv8 := 0;
    var i := 15;
    while i >= 0
      invariant -1 <= i <= 15 && src[..] == s
      invariant overflow == if i < 15 then Carry(s[i + 1]) else 0
      invariant forall k :: i < k < 16 ==> dest[k] == goal[k]
    {
      ShiftedAt(s, i);
      ShiftParts(s[i], if i < 15 then s[i + 1] else 0);
      dest[i] := src[i] << 1;
      dest[i] := dest[i] | overflow;
      overflow := (src[i] >> 7) & 1;
      i := i - 1;
    }
  }

  /** Put 0x80, 0x00, 0x00 ... after the first len bytes. */
  method AddPadding(block: array<bv8>, len: nat)
    requires block.Length == 16 && len < 16
    modifies block
    ensures block[..] == Pad(old(block[..len]))
  {
    for i := len to 16
      invariant block[..len] == old(block[..len])
      invariant forall k :: len <= k < i ==> block[k] == 0
    {
      block[i] := 0;
    }
    block[len] := 0x80;
  }

  lemma XorAt(a: bytes, b: bytes, i: nat)
    requires |a| == |b| && i < |a|
    ensures Xor(a, b)[i] == a[i] ^ b[i]
  {
  }

  lemma XorPrefix(a: bytes, b: bytes, k: nat)
    requires |a| == |b| && k <= |a|
    ensures Xor(a, b)[..k] == Xor(a[..k], b[..k])
  {
  }

  /** c may be the array a. */
  method BlockXorTriple(a: array<bv8>, at: nat, b: array<bv8>, c: array<bv8>)
    requires at + 16 <= a.Length && b.Length == 16 && c.Length == 16 && b != c
    requires a == c ==> at == 0
    modifies c
    ensures c[..] == Xor(old(a[..])[at..at + 16], b[..])
  {
    hide Xor;
    ghost var s := a[..][at..at + 16];
    ghost var goal := Xor(s, b[..]);
    for i := 0 to 16
      invariant forall k :: 0 <= k < i ==> c[k] == goal[k]
      invariant forall k :: i <= k < 16 ==> a[at + k] == s[k]
    {
      XorAt(s, b[..], i);
      c[i] := a[at + i] ^ b[i];
    }
  }

  /** The two halves of gen_subkey are this, from L into K1 and from K1 into K2. */
  method DoubleInto(dest: array<bv8>, src: array<bv8>)
    requires dest.Length == 16 && src.Length == 16 && dest != src
    modifies dest
    ensures dest[..] == Doubled(src[..])
  {
    hide ShiftedLeft;
    LeftShift(dest, src);
    if src[0] & 0x80 != 0 {
      dest[15] := dest[15] ^ 0x87;
    }
  }

  method GenSubkey(w: RoundKeys, subkey1: array<bv8>, subkey2: array<bv8>)
    requires subkey1.Length == 16 && subkey2.Length == 16 && subkey1 != subkey2
    modifies subkey1, subkey2
    ensures subkey1[..] == Subkey1(w) && subkey2[..] == Subkey2(w)
  {
    hide Cipher, Doubled, Splice;
    var l := new bv8[16](_ => 0);
    assert l[..] == ZERO_BLOCK;
    WholeBuffer(l[..], Cipher(ZERO_BLOCK, w));
    assert l[0..16] == l[..];
    Aes.Cipher(l, 0, w);
    DoubleInto(subkey1, l);
    DoubleInto(subkey2, subkey1);
  }

  lemma WholeBuffer(s: bytes, b: Block)
    requires |s| == 16
    ensures Splice(s, 0, b) == b
  {
  }

  /** What one pass of the loop encrypts: `block` is what is read at i, of which only the message counts. */
  ghost function StepTemp(length: nat, i: nat, block: Block, x: Block, k1: Block, k2: Block): (temp: Block)
    requires i < length
  {
    if i + 16 == length then Xor(Xor(block, x), k1)
    else if i + 16 > length then Xor(Pad(Xor(block, x)[..length - i]), k2)
    else Xor(block, x)
  }

  lemma MacStep(w: RoundKeys, m: bytes, i: nat, n: nat, block: Block, x: Block, k1: Block, k2: Block)
    requires i % 16 == 0 && i < |m| && n == i + 16 && n % 16 == 0
    requires if n <= |m| then block == m[i..n] else block[..|m| - i] == m[i..]
    requires x == Chain(w, ZERO_BLOCK, m[..i]) && k1 == Subkey1(w) && k2 == Subkey2(w)
    ensures n < |m| ==> Cipher(StepTemp(|m|, i, block, x, k1, k2), w) == Chain(w, ZERO_BLOCK, m[..n])
    ensures n >= |m| ==> Cipher(StepTemp(|m|, i, block, x, k1, k2), w) == BufferMac(w, m)
  {
    hide Cipher, Doubled, Chain, Pad, Xor;
    if n < |m| {
      assert m[..n] == m[..i] + block;
      ChainAppend(w, ZERO_BLOCK, m[..i], block);
    } else {
      assert Before(|m|) == i;
      if i + 16 > |m| {
        XorPrefix(block, x, |m| - i);
      } else {
        assert m[i..] == block;
      }
    }
  }

  /** The body of the loop up to the encryption. */
  method StepBlock(input: array<bv8>, at: nat, i: nat, length: nat, previous: array<bv8>,
                   subkey1: array<bv8>, subkey2: array<bv8>, temp: array<bv8>)
    requires i < length && at + i + 16 <= input.Length
    requires previous.Length == 16 && subkey1.Length == 16 && subkey2.Length == 16 && temp.Length == 16
    requires temp != previous && temp != subkey1 && temp != subkey2 && temp != input
    modifies temp
    ensures temp[..] == StepTemp(length, i, old(input[..])[at + i..at + i + 16], previous[..], subkey1[..], subkey2[..])
  {
    hide Xor, Pad;
    BlockXorTriple(input, at + i, previous, temp);
    assert temp[..][0..16] == temp[..];
    if i + 16 == length {
      BlockXorTriple(temp, 0, subkey1, temp);
    } else if i + 16 > length {
      assert temp[..length - i] == temp[..][..length - i];
      AddPadding(temp, length - i);
      assert temp[..][0..16] == temp[..];
      BlockXorTriple(temp, 0, subkey2, temp);
    }
  }

  method EncryptInto(w: RoundKeys, temp: array<bv8>, previous: array<bv8>)
    requires temp.Length == 16 && previous.Length == 16 && temp != previous
    modifies temp, previous
    ensures previous[..] == Cipher(old(temp[..]), w)
  {
    hide Cipher, Splice;
    assert temp[0..16] == temp[..];
    WholeBuffer(temp[..], Cipher(temp[..], w));
    Aes.Cipher(temp, 0, w);
    for k := 0 to 16
      invariant previous[..k] == temp[..k]
      invariant temp[..] == Cipher(old(temp[..]), w)
    {
      previous[k] := temp[k];
    }
    assert previous[..] == previous[..16] && temp[..] == temp[..16];
  }

  /** AES_CMAC_buffer. The loop counter is 32 bits wide. A partial last block is read to its full 16 bytes, so they
    * have to be there.
    */
  method MacBuffer(w: RoundKeys, input: array<bv8>, at: nat, length: nat, mac: array<bv8>, macAt: nat)
    requires length <= 0xffff_fff0
    requires at + (length + 15) / 16 * 16 <= input.Length && macAt + 16 <= mac.Length
    modifies mac
    ensures mac[..] == Splice(old(mac[..]), macAt, BufferMac(w, old(input[..])[at..at + length]))
  {
    hide Cipher, Xor, Splice, BufferMac, Chain, Subkey1, Subkey2, StepTemp;
    var subkey1, subkey2 := new bv8[16](_ => 0), new bv8[16](_ => 0);
    var previous, temp := new bv8[16](_ => 0), new bv8[16](_ => 0);
    ghost var data, before := input[..], mac[..];
    ghost var m := data[at..at + length];
    assert previous[..] == ZERO_BLOCK;
    GenSubkey(w, subkey1, subkey2);
    EmptyChain(w, m);
    var i := 0;
    while i < length
      invariant i % 16 == 0 && i <= (length + 15) / 16 * 16
      invariant subkey1[..] == Subkey1(w) && subkey2[..] == Subkey2(w)
      invariant previous[..] == if i < length then Chain(w, ZERO_BLOCK, m[..i]) else BufferMac(w, m)
      invariant input[..] == data && mac[..] == before
    {
      BlockIn(data, at, length, i);
      MacStep(w, m, i, i + 16, data[at + i..at + i + 16], previous[..], subkey1[..], subkey2[..]);
      StepBlock(input, at, i, length, previous, subkey1, subkey2, temp);
      EncryptInto(w, temp, previous);
      i := i + 16;
    }
    CopyBlock(previous, mac, macAt);
  }

  lemma BlockIn(data: bytes, at: nat, length: nat, i: nat)
    requires at + length <= |data| && i < length && at + i + 16 <= |data| && i % 16 == 0
    ensures (i + 16) % 16 == 0
    ensures var m, block := data[at..at + length], data[at + i..at + i + 16];
      if i + 16 <= length then block == m[i..i + 16] else block[..length - i] == m[i..]
  {
    var m, block := data[at..at + length], data[at + i..at + i + 16];
    if i + 16 <= length {
      assert forall k :: 0 <= k < 16 ==> block[k] == m[i..i + 16][k];
    } else {
      assert forall k :: 0 <= k < length - i ==> block[..length - i][k] == m[i..][k];
    }
  }

  lemma EmptyChain(w: RoundKeys, m: bytes)
    ensures Chain(w, ZERO_BLOCK, m[..0]) == ZERO_BLOCK
    ensures m == [] ==> BufferMac(w, m) == ZERO_BLOCK
  {
  }

  method CopyBlock(from: array<bv8>, to: array<bv8>, at: nat)
    requires from.Length == 16 && at + 16 <= to.Length && from != to
    modifies to
    ensures to[..] == Splice(old(to[..]), at, from[..])
  {
    for k := 0 to 16
      invariant forall j :: 0 <= j < k ==> to[at + j] == from[j]
      invariant forall m :: 0 <= m < at || at + 16 <= m < to.Length ==> to[m] == old(to[m])
    {
      to[at + k] := from[k];
    }
    SpliceIs(old(to[..]), to[..], at, from[..]);
  }

  /** AES_CMAC_buffer_key. */
  method MacBufferKey(key: Block, input: array<bv8>, at: nat, length: nat, output: array<bv8>, outputAt: nat)
    requires length <= 0xffff_fff0
    requires at + (length + 15) / 16 * 16 <= input.Length && outputAt + 16 <= output.Length
    modifies output
    ensures output[..]
         == Splice(old(output[..]), outputAt, BufferMac(KeyExpansion(key), old(input[..])[at..at + length]))
  {
    hide Splice, BufferMac;
    var w := Aes.InitCtx(key);
    MacBuffer(w, input, at, length, output, outputAt);
  }
}
