/** What FIPS 180-4 says of the pieces that the specification of SHA-256 is made of, in terms of primes, bits and plain
  * 32-bit arithmetic.
  */
module ShaStandard {
  import opened Bytes
  import opened Fips180

  // ----- sections 4.2.2 and 5.3.3: the constants -----

  const P0: seq<int> := [2, 3, 5, 7, 11, 13, 17, 19]
  const P1: seq<int> := [23, 29, 31, 37, 41, 43, 47, 53]
  const P2: seq<int> := [59, 61, 67, 71, 73, 79, 83, 89]
  const P3: seq<int> := [97, 101, 103, 107, 109, 113, 127, 131]
  const P4: seq<int> := [137, 139, 149, 151, 157, 163, 167, 173]
  const P5: seq<int> := [179, 181, 191, 193, 197, 199, 211, 223]
  const P6: seq<int> := [227, 229, 233, 239, 241, 251, 257, 263]
  const P7: seq<int> := [269, 271, 277, 281, 283, 293, 307, 311]

  /** The first 64 prime numbers. */
  const PRIMES: seq<int> := ((P0 + P1) + (P2 + P3)) + ((P4 + P5) + (P6 + P7))

  function Cube(x: int): int {
    x * x * x
  }

  function Square(x: int): int {
    x * x
  }

  function CubeRoot(p: int): int {
    if p < 8 then 1 else if p < 27 then 2 else if p < 64 then 3 else if p < 125 then 4 else if p < 216 then 5 else 6
  }

  /** k holds the first 32 bits of the fractional part of the cube root of p. */
  predicate IsCubeRootFraction(p: int, k: bv32) {
    var n := CubeRoot(p);
    && Cube(n) <= p < Cube(n + 1)
    && Cube(n * 0x1_0000_0000 + k as int) <= p * 0x1_00000000_00000000_00000000
    && p * 0x1_00000000_00000000_00000000 < Cube(n * 0x1_0000_0000 + k as int + 1)
  }

  /** Likewise of the square root, whose integer part is n. */
  predicate IsSquareRootFraction(p: int, n: int, k: bv32) {
    && Square(n) <= p < Square(n + 1)
    && Square(n * 0x1_0000_0000 + k as int) <= p * 0x1_00000000_00000000
    && p * 0x1_00000000_00000000 < Square(n * 0x1_0000_0000 + k as int + 1)
  }

  predicate FourFractions(p: seq<int>, k: seq<bv32>, at: nat)
    requires |p| == |k| == 8 && at <= 4
  {
    && IsCubeRootFraction(p[at], k[at]) && IsCubeRootFraction(p[at + 1], k[at + 1])
    && IsCubeRootFraction(p[at + 2], k[at + 2]) && IsCubeRootFraction(p[at + 3], k[at + 3])
  }

  lemma Root(p: int, n: int, k: bv32)
    requires n == CubeRoot(p) && Cube(n) <= p < Cube(n + 1)
    requires Cube(n * 0x1_0000_0000 + k as int) <= p * 0x1_00000000_00000000_00000000
    requires p * 0x1_00000000_00000000_00000000 < Cube(n * 0x1_0000_0000 + k as int + 1)
    ensures IsCubeRootFraction(p, k)
  {
  }

  lemma Row0a()
    ensures FourFractions(P0, K0, 0)
  {
    hide IsCubeRootFraction;
    Root(2, 1, 0x428a2f98);
    Root(3, 1, 0x71374491);
    Root(5, 1, 0xb5c0fbcf);
    Root(7, 1, 0xe9b5dba5);
  }

  lemma Row0b()
    ensures FourFractions(P0, K0, 4)
  {
    hide IsCubeRootFraction;
    Root(11, 2, 0x3956c25b);
    Root(13, 2, 0x59f111f1);
    Root(17, 2, 0x923f82a4);
    Root(19, 2, 0xab1c5ed5);
  }

  lemma Row1a()
    ensures FourFractions(P1, K1, 0)
  {
    hide IsCubeRootFraction;
    Root(23, 2, 0xd807aa98);
    Root(29, 3, 0x12835b01);
    Root(31, 3, 0x243185be);
    Root(37, 3, 0x550c7dc3);
  }

  lemma Row1b()
    ensures FourFractions(P1, K1, 4)
  {
    hide IsCubeRootFraction;
    Root(41, 3, 0x72be5d74);
    Root(43, 3, 0x80deb1fe);
    Root(47, 3, 0x9bdc06a7);
    Root(53, 3, 0xc19bf174);
  }

  lemma Row2a()
    ensures FourFractions(P2, K2, 0)
  {
    hide IsCubeRootFraction;
    Root(59, 3, 0xe49b69c1);
    Root(61, 3, 0xefbe4786);
    Root(67, 4, 0x0fc19dc6);
    Root(71, 4, 0x240ca1cc);
  }

  lemma Row2b()
    ensures FourFractions(P2, K2, 4)
  {
    hide IsCubeRootFraction;
    Root(73, 4, 0x2de92c6f);
    Root(79, 4, 0x4a7484aa);
    Root(83, 4, 0x5cb0a9dc);
    Root(89, 4, 0x76f988da);
  }

  lemma Row3a()
    ensures FourFractions(P3, K3, 0)
  {
    hide IsCubeRootFraction;
    Root(97, 4, 0x983e5152);
    Root(101, 4, 0xa831c66d);
    Root(103, 4, 0xb00327c8);
    Root(107, 4, 0xbf597fc7);
  }

  lemma Row3b()
    ensures FourFractions(P3, K3, 4)
  {
    hide IsCubeRootFraction;
    Root(109, 4, 0xc6e00bf3);
    Root(113, 4, 0xd5a79147);
    Root(127, 5, 0x06ca6351);
    Root(131, 5, 0x14292967);
  }

  lemma Row4a()
    ensures FourFractions(P4, K4, 0)
  {
    hide IsCubeRootFraction;
    Root(137, 5, 0x27b70a85);
    Root(139, 5, 0x2e1b2138);
    Root(149, 5, 0x4d2c6dfc);
    Root(151, 5, 0x53380d13);
  }

  lemma Row4b()
    ensures FourFractions(P4, K4, 4)
  {
    hide IsCubeRootFraction;
    Root(157, 5, 0x650a7354);
    Root(163, 5, 0x766a0abb);
    Root(167, 5, 0x81c2c92e);
    Root(173, 5, 0x92722c85);
  }

  lemma Row5a()
    ensures FourFractions(P5, K5, 0)
  {
    hide IsCubeRootFraction;
    Root(179, 5, 0xa2bfe8a1);
    Root(181, 5, 0xa81a664b);
    Root(191, 5, 0xc24b8b70);
    Root(193, 5, 0xc76c51a3);
  }

  lemma Row5b()
    ensures FourFractions(P5, K5, 4)
  {
    hide IsCubeRootFraction;
    Root(197, 5, 0xd192e819);
    Root(199, 5, 0xd6990624);
    Root(211, 5, 0xf40e3585);
    Root(223, 6, 0x106aa070);
  }

  lemma Row6a()
    ensures FourFractions(P6, K6, 0)
  {
    hide IsCubeRootFraction;
    Root(227, 6, 0x19a4c116);
    Root(229, 6, 0x1e376c08);
    Root(233, 6, 0x2748774c);
    Root(239, 6, 0x34b0bcb5);
  }

  lemma Row6b()
    ensures FourFractions(P6, K6, 4)
  {
    hide IsCubeRootFraction;
    Root(241, 6, 0x391c0cb3);
    Root(251, 6, 0x4ed8aa4a);
    Root(257, 6, 0x5b9cca4f);
    Root(263, 6, 0x682e6ff3);
  }

  lemma Row7a()
    ensures FourFractions(P7, K7, 0)
  {
    hide IsCubeRootFraction;
    Root(269, 6, 0x748f82ee);
    Root(271, 6, 0x78a5636f);
    Root(277, 6, 0x84c87814);
    Root(281, 6, 0x8cc70208);
  }

  lemma Row7b()
    ensures FourFractions(P7, K7, 4)
  {
    hide IsCubeRootFraction;
    Root(283, 6, 0x90befffa);
    Root(293, 6, 0xa4506ceb);
    Root(307, 6, 0xbef9a3f7);
    Root(311, 6, 0xc67178f2);
  }

  /** Element j of row r. */
  lemma EightRows<T>(a: seq<T>, b: seq<T>, c: seq<T>, d: seq<T>, e: seq<T>, f: seq<T>, g: seq<T>, h: seq<T>,
                     r: nat, j: nat)
    requires |a| == |b| == |c| == |d| == |e| == |f| == |g| == |h| == 8 && r < 8 && j < 8
    ensures var s := ((a + b) + (c + d)) + ((e + f) + (g + h));
      && |s| == 64
      && s[8 * r + j] == (if r == 0 then a else if r == 1 then b else if r == 2 then c else if r == 3 then d
                          else if r == 4 then e else if r == 5 then f else if r == 6 then g else h)[j]
  {
    var i := 8 * r + j;
    var s, t := (a + b) + (c + d), (e + f) + (g + h);
    if r < 4 {
      assert (s + t)[i] == s[i];
    } else {
      assert (s + t)[i] == t[i - 32];
    }
  }

  lemma Rows(r: nat, j: nat)
    requires r < 8 && j < 8
    ensures |PRIMES| == |K| == 64
    ensures K[8 * r + j] == RowOfK(r)[j] && PRIMES[8 * r + j] == RowOfPrimes(r)[j]
  {
    EightRows(K0, K1, K2, K3, K4, K5, K6, K7, r, j);
    EightRows(P0, P1, P2, P3, P4, P5, P6, P7, r, j);
  }

  function RowOfK(r: nat): (k: seq<bv32>)
    requires r < 8
    ensures |k| == 8
  {
    if r == 0 then K0 else if r == 1 then K1 else if r == 2 then K2 else if r == 3 then K3
    else if r == 4 then K4 else if r == 5 then K5 else if r == 6 then K6 else K7
  }

  function RowOfPrimes(r: nat): (p: seq<int>)
    requires r < 8
    ensures |p| == 8
  {
    if r == 0 then P0 else if r == 1 then P1 else if r == 2 then P2 else if r == 3 then P3
    else if r == 4 then P4 else if r == 5 then P5 else if r == 6 then P6 else P7
  }

  lemma RowHolds(r: nat)
    requires r < 8
    ensures FourFractions(RowOfPrimes(r), RowOfK(r), 0) && FourFractions(RowOfPrimes(r), RowOfK(r), 4)
  {
    hide FourFractions;
    if r == 0 {
      Row0a();
      Row0b();
    } else if r == 1 {
      Row1a();
      Row1b();
    } else if r == 2 {
      Row2a();
      Row2b();
    } else if r == 3 {
      Row3a();
      Row3b();
    } else if r == 4 {
      Row4a();
      Row4b();
    } else if r == 5 {
      Row5a();
      Row5b();
    } else if r == 6 {
      Row6a();
      Row6b();
    } else {
      Row7a();
      Row7b();
    }
  }

  lemma FromRow(p: seq<int>, k: seq<bv32>, j: nat)
    requires |p| == |k| == 8 && j < 8 && FourFractions(p, k, 0) && FourFractions(p, k, 4)
    ensures IsCubeRootFraction(p[j], k[j])
  {
    hide IsCubeRootFraction;
  }

  /** Section 4.2.2: each of the 64 constants comes from the cube root of a prime. */
  lemma RoundConstants(i: nat)
    requires i < 64
    ensures |PRIMES| == |K| == 64 && IsCubeRootFraction(PRIMES[i], K[i])
  {
    hide IsCubeRootFraction, RowOfK, RowOfPrimes, FourFractions;
    var r, j := i / 8, i % 8;
    Rows(r, j);
    RowHolds(r);
    FromRow(RowOfPrimes(r), RowOfK(r), j);
  }

  /** Section 5.3.3: the initial hash value comes from the square roots of the first eight primes. */
  lemma InitialHash()
    ensures IsSquareRootFraction(2, 1, INITIAL.a)
    ensures IsSquareRootFraction(3, 1, INITIAL.b)
    ensures IsSquareRootFraction(5, 2, INITIAL.c)
    ensures IsSquareRootFraction(7, 2, INITIAL.d)
    ensures IsSquareRootFraction(11, 3, INITIAL.e)
    ensures IsSquareRootFraction(13, 3, INITIAL.f)
    ensures IsSquareRootFraction(17, 4, INITIAL.g)
    ensures IsSquareRootFraction(19, 4, INITIAL.h)
  {
  }

  // ----- section 4.1.2: the functions, bit by bit and in shifts -----

  /** Where x has ones, Ch takes the bits of y, and elsewhere those of z. */
  lemma ChooseBits(x: bv32, y: bv32, z: bv32)
    ensures Ch(x, y, z) & x == y & x && Ch(x, y, z) & !x == z & !x
  {
    ChooseRaw(x, y, z);
  }

  lemma ChooseRaw(x: bv32, y: bv32, z: bv32)
    ensures ((x & y) ^ (!x & z)) & x == y & x && ((x & y) ^ (!x & z)) & !x == z & !x
  {
  }

  /** Where x and y agree, Maj takes their bits, and elsewhere those of z. */
  lemma MajorityBits(x: bv32, y: bv32, z: bv32)
    ensures Maj(x, y, z) & !(x ^ y) == x & !(x ^ y) && Maj(x, y, z) & (x ^ y) == z & (x ^ y)
  {
    MajorityRaw(x, y, z);
  }

  lemma MajorityRaw(x: bv32, y: bv32, z: bv32)
    ensures ((x & y) ^ (x & z) ^ (y & z)) & !(x ^ y) == x & !(x ^ y)
    ensures ((x & y) ^ (x & z) ^ (y & z)) & (x ^ y) == z & (x ^ y)
  {
  }

  lemma Sigmas(x: bv32)
    ensures UpperSigma0(x) == ((x >> 2) | (x << 30)) ^ ((x >> 13) | (x << 19)) ^ ((x >> 22) | (x << 10))
    ensures UpperSigma1(x) == ((x >> 6) | (x << 26)) ^ ((x >> 11) | (x << 21)) ^ ((x >> 25) | (x << 7))
    ensures LowerSigma0(x) == ((x >> 7) | (x << 25)) ^ ((x >> 18) | (x << 14)) ^ (x >> 3)
    ensures LowerSigma1(x) == ((x >> 17) | (x << 15)) ^ ((x >> 19) | (x << 13)) ^ (x >> 10)
  {
    assert (x >> 2) | (x << 30) == x.RotateRight(2);
    assert (x >> 13) | (x << 19) == x.RotateRight(13);
    assert (x >> 22) | (x << 10) == x.RotateRight(22);
    assert (x >> 6) | (x << 26) == x.RotateRight(6);
    assert (x >> 11) | (x << 21) == x.RotateRight(11);
    assert (x >> 25) | (x << 7) == x.RotateRight(25);
    assert (x >> 7) | (x << 25) == x.RotateRight(7);
    assert (x >> 18) | (x << 14) == x.RotateRight(18);
    assert (x >> 17) | (x << 15) == x.RotateRight(17);
    assert (x >> 19) | (x << 13) == x.RotateRight(19);
  }

  // ----- section 6.2.2: schedule, rounds, hash value -----

  /** Section 2.2: addition modulo 2^32 is that of 32-bit words. */
  lemma Addition(x: bv32, y: bv32)
    ensures Add(x, y) == x + y
  {
  }

  lemma FirstWords(block: bytes, t: nat)
    requires |block| == 64 && t < 16
    ensures Schedule(block, t) ==
      ((block[4 * t] as bv32) << 24) | ((block[4 * t + 1] as bv32) << 16) | ((block[4 * t + 2] as bv32) << 8)
      | (block[4 * t + 3] as bv32)
  {
    WordOfBytes(block[4 * t], block[4 * t + 1], block[4 * t + 2], block[4 * t + 3]);
    hide BigEndian;
  }

  lemma WordOfBytes(a: bv8, b: bv8, c: bv8, d: bv8)
    ensures BigEndian(a, b, c, d) == ((a as bv32) << 24) | ((b as bv32) << 16) | ((c as bv32) << 8) | (d as bv32)
  {
  }

  lemma LaterWords(block: bytes, t: nat)
    requires |block| == 64 && 16 <= t < 64
    ensures Schedule(block, t) ==
      Add(Add(Add(LowerSigma1(Schedule(block, t - 2)), Schedule(block, t - 7)), LowerSigma0(Schedule(block, t - 15))),
          Schedule(block, t - 16))
  {
    hide LowerSigma0, LowerSigma1, Add;
  }

  /** The working variables after a round with constant k and word w. */
  lemma RoundEquations(r: Words8, k: bv32, w: bv32)
    ensures var t1 := Add(Add(Add(Add(r.h, UpperSigma1(r.e)), Ch(r.e, r.f, r.g)), k), w);
      var t2 := Add(UpperSigma0(r.a), Maj(r.a, r.b, r.c));
      var s := Round(r, k, w);
      && s.h == r.g && s.g == r.f && s.f == r.e && s.e == Add(r.d, t1)
      && s.d == r.c && s.c == r.b && s.b == r.a && s.a == Add(t1, t2)
  {
    hide UpperSigma0, UpperSigma1, Ch, Maj, Add;
  }

  /** A block adds the working variables after 64 rounds to the hash value; round t takes constant t and word t. */
  lemma CompressEquations(h: Words8, block: bytes)
    requires |block| == 64
    ensures var c, r := Compress(h, block), Rounds(h, block, 64);
      && c.a == Add(h.a, r.a) && c.b == Add(h.b, r.b) && c.c == Add(h.c, r.c) && c.d == Add(h.d, r.d)
      && c.e == Add(h.e, r.e) && c.f == Add(h.f, r.f) && c.g == Add(h.g, r.g) && c.h == Add(h.h, r.h)
  {
    hide Rounds, Add;
  }

  lemma RoundsInOrder(h: Words8, block: bytes, t: nat)
    requires |block| == 64 && t < 64
    ensures |K| == 64 && Rounds(h, block, 0) == h
    ensures Rounds(h, block, t + 1) == Round(Rounds(h, block, t), K[t], Schedule(block, t))
  {
    hide Round, Schedule;
    Rows(0, 0);
  }

  // ----- sections 5.1.1 and 6.2: padding and digest -----

  /** The padded message: the message, a one bit, the fewest zeros that fill whole blocks, and the length in bits. */
  lemma PaddedMessage(m: bytes)
    requires |m| < 0x2000_0000_0000_0000
    ensures var p := Pad(m);
      && |p| % 64 == 0 && |m| + 9 <= |p| < |m| + 73
      && p[..|m|] == m && p[|m|] == 0x80
      && (forall k :: |m| < k < |p| - 8 ==> p[k] == 0)
      && NumberBigEndian(p[|p| - 8..]) == 8 * |m|
  {
    hide PadZeros, Length64;
    var p, l := Pad(m), Length64(8 * |m|);
    assert p[|p| - 8..] == l;
    LengthBytes(8 * |m|);
  }

  lemma LengthBytes(n: nat)
    requires n < 0x1_0000_0000_0000_0000
    ensures NumberBigEndian(Length64(n)) == n
  {
    hide ByteOf;
    BytesOfNumberBigEndian(n, Length64(n));
  }

  /** Four bytes as a word, most significant byte first. */
  function Joined(b: bytes): bv32
    requires |b| == 4
  {
    ((b[0] as bv32) << 24) | ((b[1] as bv32) << 16) | ((b[2] as bv32) << 8) | (b[3] as bv32)
  }

  /** The digest is the words of the last hash value, most significant byte first. */
  lemma DigestWords(m: bytes, j: nat)
    requires |m| < 0x2000_0000_0000_0000 && j < 8
    ensures Joined(Sha256(m)[4 * j..4 * j + 4]) == WordOf(Blocks(Pad(m)), j)
  {
    hide Blocks, Pad, WordOf, Joined, Digest;
    var h := Blocks(Pad(m));
    DigestBytes(h, j);
    WordBytes(WordOf(h, j));
  }

  lemma DigestBytes(h: Words8, j: nat)
    requires j < 8
    ensures Digest(h)[4 * j..4 * j + 4]
      == [WordByte(WordOf(h, j), 0), WordByte(WordOf(h, j), 1), WordByte(WordOf(h, j), 2), WordByte(WordOf(h, j), 3)]
  {
    hide WordByte, WordOf, Digest;
    DigestByte(h, j, 0);
    DigestByte(h, j, 1);
    DigestByte(h, j, 2);
    DigestByte(h, j, 3);
  }

  lemma DigestByte(h: Words8, j: nat, i: nat)
    requires j < 8 && i < 4
    ensures Digest(h)[4 * j + i] == WordByte(WordOf(h, j), i)
  {
    hide WordByte, WordOf;
    Quarter(j, i);
  }

  lemma Quarter(j: nat, i: nat)
    requires i < 4
    ensures (4 * j + i) / 4 == j && (4 * j + i) % 4 == i
  {
  }

  lemma WordBytes(w: bv32)
    ensures Joined([WordByte(w, 0), WordByte(w, 1), WordByte(w, 2), WordByte(w, 3)]) == w
  {
  }
}
