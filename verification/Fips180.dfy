/** SHA-256 as FIPS 180-4 defines it, on values. */
module Fips180 {
  import opened Bytes

  datatype Words8 = Words8(a: bv32, b: bv32, c: bv32, d: bv32, e: bv32, f: bv32, g: bv32, h: bv32)

  /** Section 2.2: addition modulo 2^32. */
  function Add(x: bv32, y: bv32): bv32 { x + y }

  // ----- section 4.1.2 -----

  function Ch(x: bv32, y: bv32, z: bv32): bv32 { (x & y) ^ (!x & z) }
  function Maj(x: bv32, y: bv32, z: bv32): bv32 { (x & y) ^ (x & z) ^ (y & z) }
  function UpperSigma0(x: bv32): bv32 { x.RotateRight(2) ^ x.RotateRight(13) ^ x.RotateRight(22) }
  function UpperSigma1(x: bv32): bv32 { x.RotateRight(6) ^ x.RotateRight(11) ^ x.RotateRight(25) }
  function LowerSigma0(x: bv32): bv32 { x.RotateRight(7) ^ x.RotateRight(18) ^ (x >> 3) }
  function LowerSigma1(x: bv32): bv32 { x.RotateRight(17) ^ x.RotateRight(19) ^ (x >> 10) }

  // ----- section 4.2.2 -----

  const K0: seq<bv32> := [
    0x428a2f98, 0x71374491, 0xb5c0fbcf, 0xe9b5dba5,
    0x3956c25b, 0x59f111f1, 0x923f82a4, 0xab1c5ed5]
  const K1: seq<bv32> := [
    0xd807aa98, 0x12835b01, 0x243185be, 0x550c7dc3,
    0x72be5d74, 0x80deb1fe, 0x9bdc06a7, 0xc19bf174]
  const K2: seq<bv32> := [
    0xe49b69c1, 0xefbe4786, 0x0fc19dc6, 0x240ca1cc,
    0x2de92c6f, 0x4a7484aa, 0x5cb0a9dc, 0x76f988da]
  const K3: seq<bv32> := [
    0x983e5152, 0xa831c66d, 0xb00327c8, 0xbf597fc7,
    0xc6e00bf3, 0xd5a79147, 0x06ca6351, 0x14292967]
  const K4: seq<bv32> := [
    0x27b70a85, 0x2e1b2138, 0x4d2c6dfc, 0x53380d13,
    0x650a7354, 0x766a0abb, 0x81c2c92e, 0x92722c85]
  const K5: seq<bv32> := [
    0xa2bfe8a1, 0xa81a664b, 0xc24b8b70, 0xc76c51a3,
    0xd192e819, 0xd6990624, 0xf40e3585, 0x106aa070]
  const K6: seq<bv32> := [
    0x19a4c116, 0x1e376c08, 0x2748774c, 0x34b0bcb5,
    0x391c0cb3, 0x4ed8aa4a, 0x5b9cca4f, 0x682e6ff3]
  const K7: seq<bv32> := [
    0x748f82ee, 0x78a5636f, 0x84c87814, 0x8cc70208,
    0x90befffa, 0xa4506ceb, 0xbef9a3f7, 0xc67178f2]

  const K: seq<bv32> := ((K0 + K1) + (K2 + K3)) + ((K4 + K5) + (K6 + K7))

  // ----- section 5: padding, parsing, the initial hash value -----

  /** The 64-bit big-endian representation of n. */
  function Length64(n: nat): (b: bytes)
    ensures |b| == 8
  {
    seq(8, i requires 0 <= i < 8 => ByteOf(n, 7 - i))
  }

  /** The least number of zero bytes after 0x80 that leaves eight bytes of the last block for the length. */
  function PadZeros(length: nat): (k: nat)
    ensures (length + 1 + k + 8) % 64 == 0 && k < 64
  {
    (55 - length) % 64
  }

  function Pad(m: bytes): (p: bytes)
    requires |m| < 0x2000_0000_0000_0000
    ensures |p| % 64 == 0
  {
    m + [0x80] + Zeros(PadZeros(|m|)) + Length64(8 * |m|)
  }

  function BigEndian(b0: bv8, b1: bv8, b2: bv8, b3: bv8): bv32 {
    ((b0 as bv32) << 24) | ((b1 as bv32) << 16) | ((b2 as bv32) << 8) | (b3 as bv32)
  }

  /** Byte i of a word, most significant first. */
  function WordByte(w: bv32, i: nat): bv8
    requires i < 4
  {
    if i == 0 then (w >> 24) as bv8
    else if i == 1 then ((w >> 16) & 0xff) as bv8
    else if i == 2 then ((w >> 8) & 0xff) as bv8
    else (w & 0xff) as bv8
  }

  const INITIAL := Words8(
    0x6a09e667, 0xbb67ae85, 0x3c6ef372, 0xa54ff53a, 0x510e527f, 0x9b05688c, 0x1f83d9ab, 0x5be0cd19)

  // ----- section 6.2.2 -----

  function Schedule(block: bytes, t: nat): bv32
    requires |block| == 64
  {
    if t < 16 then BigEndian(block[4 * t], block[4 * t + 1], block[4 * t + 2], block[4 * t + 3])
    else
      Add(Add(Add(LowerSigma1(Schedule(block, t - 2)), Schedule(block, t - 7)), LowerSigma0(Schedule(block, t - 15))),
          Schedule(block, t - 16))
  }

  function Round(r: Words8, k: bv32, w: bv32): Words8 {
    var t1 := Add(Add(Add(Add(r.h, UpperSigma1(r.e)), Ch(r.e, r.f, r.g)), k), w);
    var t2 := Add(UpperSigma0(r.a), Maj(r.a, r.b, r.c));
    Words8(Add(t1, t2), r.a, r.b, r.c, Add(r.d, t1), r.e, r.f, r.g)
  }

  function Rounds(r: Words8, block: bytes, n: nat): Words8
    requires |block| == 64 && n <= 64
  {
    if n == 0 then r else Round(Rounds(r, block, n - 1), K[n - 1], Schedule(block, n - 1))
  }

  function Plus(r: Words8, s: Words8): Words8 {
    Words8(Add(r.a, s.a), Add(r.b, s.b), Add(r.c, s.c), Add(r.d, s.d),
           Add(r.e, s.e), Add(r.f, s.f), Add(r.g, s.g), Add(r.h, s.h))
  }

  function Compress(h: Words8, block: bytes): Words8
    requires |block| == 64
  {
    Plus(h, Rounds(h, block, 64))
  }

  /** The hash value after whole blocks. */
  function Blocks(m: bytes): Words8
    requires |m| % 64 == 0
    decreases |m|
  {
    if m == [] then INITIAL else Compress(Blocks(m[..|m| - 64]), m[|m| - 64..])
  }

  function WordOf(h: Words8, j: nat): bv32
    requires j < 8
  {
    if j == 0 then h.a else if j == 1 then h.b else if j == 2 then h.c else if j == 3 then h.d
    else if j == 4 then h.e else if j == 5 then h.f else if j == 6 then h.g else h.h
  }

  function Digest(h: Words8): (d: bytes)
    ensures |d| == 32
  {
    seq(32, i requires 0 <= i < 32 => WordByte(WordOf(h, i / 4), i % 4))
  }

  function Sha256(m: bytes): (d: bytes)
    requires |m| < 0x2000_0000_0000_0000
    ensures |d| == 32
  {
    Digest(Blocks(Pad(m)))
  }
}
