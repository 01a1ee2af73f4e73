/** The streaming SHA-256 of sha256.c, proved to compute the digest of FIPS 180-4 of everything it was fed. */
module Sha256 {
  import opened Bytes
  import Fips = Fips180
  import ShaStandard

  // ----- the macros: rotations as two shifts -----

  function Ep0(x: bv32): bv32 {
    ((x >> 2) | (x << 30)) ^ ((x >> 13) | (x << 19)) ^ ((x >> 22) | (x << 10))
  }

  function Ep1(x: bv32): bv32 {
    ((x >> 6) | (x << 26)) ^ ((x >> 11) | (x << 21)) ^ ((x >> 25) | (x << 7))
  }

  function Sig0(x: bv32): bv32 {
    ((x >> 7) | (x << 25)) ^ ((x >> 18) | (x << 14)) ^ (x >> 3)
  }

  function Sig1(x: bv32): bv32 {
    ((x >> 17) | (x << 15)) ^ ((x >> 19) | (x << 13)) ^ (x >> 10)
  }

  lemma MacrosAreSigmas(x: bv32)
    ensures Ep0(x) == Fips.UpperSigma0(x)
    ensures Ep1(x) == Fips.UpperSigma1(x)
    ensures Sig0(x) == Fips.LowerSigma0(x)
    ensures Sig1(x) == Fips.LowerSigma1(x)
  {
    ShaStandard.Sigmas(x);
  }

  ghost function StateOf(s: seq<bv32>): Fips.Words8
    requires |s| == 8
  {
    Fips.Words8(s[0], s[1], s[2], s[3], s[4], s[5], s[6], s[7])
  }

  // ----- one block -----

  /** The two loops that fill the 64-word message schedule. */
  method FillSchedule(m: array<bv32>, data: array<bv8>)
    requires m.Length == 64 && data.Length == 64
    modifies m
    ensures forall t :: 0 <= t < 64 ==> m[t] == Fips.Schedule(data[..], t)
  {
    hide Fips.BigEndian, Fips.LowerSigma0, Fips.LowerSigma1, Sig0, Sig1, Fips.Add, Fips.Schedule;
    ghost var block := data[..];
    var i, j := 0, 0;
    while i < 16
      invariant 0 <= i <= 16 && j == 4 * i
      invariant forall t :: 0 <= t < i ==> m[t] == Fips.Schedule(block, t)
    {
      ScheduleAt(block, i);
      m[i] := Fips.BigEndian(data[j], data[j + 1], data[j + 2], data[j + 3]);
      i, j := i + 1, j + 4;
    }
    while i < 64
      invariant 16 <= i <= 64
      invariant forall t :: 0 <= t < i ==> m[t] == Fips.Schedule(block, t)
    {
      MacrosAreSigmas(m[i - 2]);
      MacrosAreSigmas(m[i - 15]);
      ScheduleAt(block, i);
      m[i] := Fips.Add(Fips.Add(Fips.Add(Sig1(m[i - 2]), m[i - 7]), Sig0(m[i - 15])), m[i - 16]);
      i := i + 1;
    }
  }

  lemma ScheduleAt(block: bytes, t: nat)
    requires |block| == 64
    ensures Fips.Schedule(block, t) ==
      if t < 16 then Fips.BigEndian(block[4 * t], block[4 * t + 1], block[4 * t + 2], block[4 * t + 3])
      else
        Fips.Add(Fips.Add(Fips.Add(
          Fips.LowerSigma1(Fips.Schedule(block, t - 2)), Fips.Schedule(block, t - 7)),
          Fips.LowerSigma0(Fips.Schedule(block, t - 15))), Fips.Schedule(block, t - 16))
  {
  }

  /** sha256_transform: the schedule, the 64 rounds on a .. h, and the addition to the old state. */
  method Transform(state: array<bv32>, data: array<bv8>)
    requires state.Length == 8 && data.Length == 64
    modifies state
    ensures StateOf(state[..]) == Fips.Compress(StateOf(old(state[..])), data[..])
  {
    hide Fips.Schedule, Fips.Ch, Fips.Maj, Fips.UpperSigma0, Fips.UpperSigma1, Ep0, Ep1, Fips.Rounds, Fips.K, Fips.Add;
    ghost var h0, block := StateOf(state[..]), data[..];
    var m := new bv32[64];
    FillSchedule(m, data);
    var a, b, c, d := state[0], state[1], state[2], state[3];
    var e, f, g, h := state[4], state[5], state[6], state[7];
    RoundsStart(h0, block);
    for i := 0 to 64
      invariant Fips.Words8(a, b, c, d, e, f, g, h) == Fips.Rounds(h0, block, i)
      invariant forall t :: 0 <= t < 64 ==> m[t] == Fips.Schedule(block, t)
      invariant state[..] == old(state[..])
    {
      MacrosAreSigmas(e);
      MacrosAreSigmas(a);
      NextRound(h0, block, i);
      var t1 := Fips.Add(Fips.Add(Fips.Add(Fips.Add(h, Ep1(e)), Fips.Ch(e, f, g)), Fips.K[i]), m[i]);
      var t2 := Fips.Add(Ep0(a), Fips.Maj(a, b, c));
      h := g;
      g := f;
      f := e;
      e := Fips.Add(d, t1);
      d := c;
      c := b;
      b := a;
      a := Fips.Add(t1, t2);
    }
    state[0] := Fips.Add(state[0], a);
    state[1] := Fips.Add(state[1], b);
    state[2] := Fips.Add(state[2], c);
    state[3] := Fips.Add(state[3], d);
    state[4] := Fips.Add(state[4], e);
    state[5] := Fips.Add(state[5], f);
    state[6] := Fips.Add(state[6], g);
    state[7] := Fips.Add(state[7], h);
  }

  lemma RoundsStart(h: Fips.Words8, block: bytes)
    requires |block| == 64
    ensures Fips.Rounds(h, block, 0) == h
  {
  }

  lemma NextRound(h: Fips.Words8, block: bytes, i: nat)
    requires |block| == 64 && i < 64
    ensures |Fips.K| == 64
    ensures Fips.Rounds(h, block, i + 1) == Fips.Round(Fips.Rounds(h, block, i), Fips.K[i], Fips.Schedule(block, i))
  {
  }

  // ----- streaming -----

  /** The hash value of whole blocks grows by one compression for each block appended. */
  lemma BlocksAppend(m: bytes, block: bytes)
    requires |m| % 64 == 0 && |block| == 64
    ensures Fips.Blocks(m + block) == Fips.Compress(Fips.Blocks(m), block)
  {
    hide Fips.Compress;
    assert (m + block)[..|m|] == m && (m + block)[|m|..] == block;
  }

  function Wrap64(n: nat): (r: nat) {
    n % 0x1_0000_0000_0000_0000
  }

  lemma Wrap64Adds(n: nat, k: nat)
    ensures Wrap64(Wrap64(n) + k) == Wrap64(n + k)
  {
    var r := Wrap64(n) + k;
    Wrap64Unique(n + k, n / 0x1_0000_0000_0000_0000 + r / 0x1_0000_0000_0000_0000, Wrap64(r));
  }

  lemma Wrap64Unique(n: nat, q: nat, r: nat)
    requires r < 0x1_0000_0000_0000_0000 && n == 0x1_0000_0000_0000_0000 * q + r
    ensures Wrap64(n) == r
  {
  }

  lemma Wrap64Small(n: nat)
    requires n < 0x1_0000_0000_0000_0000
    ensures Wrap64(n) == n
  {
  }

  class Ctx {
    const data: array<bv8>
    var datalen: nat
    var bitlen: nat   // 64 bits wide
    const state: array<bv32>

    /** Everything fed since the start. */
    ghost var Message: bytes

    ghost predicate Valid()
      reads this, data, state
    {
      && data.Length == 64 && state.Length == 8
      && datalen < 64 && datalen == |Message| % 64
      && data[..datalen] == Message[|Message| - datalen..]
      && StateOf(state[..]) == Fips.Blocks(Message[..|Message| - datalen])
      && bitlen == Wrap64(8 * (|Message| - datalen))
    }

    constructor ()
      ensures Valid() && Message == [] && fresh(data) && fresh(state)
    {
      hide Fips.Compress, Wrap64;
      data := new bv8[64](_ => 0);
      state := new bv32[] [
        0x6a09e667, 0xbb67ae85, 0x3c6ef372, 0xa54ff53a, 0x510e527f, 0x9b05688c, 0x1f83d9ab, 0x5be0cd19];
      datalen, bitlen, Message := 0, 0, [];
      new;
      assert state.Length == 8;
      assert StateOf(state[..]) == Fips.INITIAL;
      assert Message[..|Message| - datalen] == [];
      assert StateOf(state[..]) == Fips.Blocks([]);
      assert data[..datalen] == Message[|Message| - datalen..];
      Wrap64Small(0);
    }

    /** sha256_update: however the message is cut into calls, the context stands for all of it. */
    method Update(bs: array<bv8>, len: nat)
      requires Valid() && len <= bs.Length && bs != data && len < 0x1_0000_0000
      modifies this, data, state
      ensures Valid() && Message == old(Message) + bs[..len]
    {
      hide Fips.Blocks, Fips.Compress;
      for i := 0 to len
        invariant Valid() && Message == old(Message) + bs[..i]
        invariant bs[..] == old(bs[..])
      {
        Absorb(bs[i]);
        assert old(Message) + bs[..i] + [bs[i]] == old(Message) + bs[..i + 1];
      }
    }

    /** The body of the loop in sha256_update. */
    method Absorb(b: bv8)
      requires Valid()
      modifies this, data, state
      ensures Valid() && Message == old(Message) + [b]
    {
      hide Fips.Blocks, Fips.Compress, Wrap64, StateOf;
      ghost var m, n := Message, |Message| - datalen;
      data[datalen] := b;
      datalen := datalen + 1;
      Message := m + [b];
      assert data[..datalen] == Message[n..];
      assert Message[..n] == m[..n];
      if datalen == 64 {
        assert data[..] == data[..64];
        assert Message == m[..n] + data[..];
        BlocksAppend(m[..n], data[..]);
        Transform(state, data);
        bitlen := Wrap64(bitlen + 512);
        datalen := 0;
        Wrap64Adds(8 * n, 512);
        assert Message[..|Message|] == Message;
      }
    }

    /** The bytes of the message length in bits, most significant first, at the end of the block. */
    method StoreLength()
      requires data.Length == 64
      modifies data
      ensures data[..] == old(data[..56]) + Fips.Length64(bitlen)
    {
      hide ByteOf;
      data[63] := ByteOf(bitlen, 0);
      data[62] := ByteOf(bitlen, 1);
      data[61] := ByteOf(bitlen, 2);
      data[60] := ByteOf(bitlen, 3);
      data[59] := ByteOf(bitlen, 4);
      data[58] := ByteOf(bitlen, 5);
      data[57] := ByteOf(bitlen, 6);
      data[56] := ByteOf(bitlen, 7);
      LengthAtEnd(data[..], bitlen);
      assert data[..56] == old(data[..56]);
      assert data[..] == data[..56] + data[..][56..];
    }

    /** The padding when 0x80 leaves room for the length in the same block. */
    method PadShort()
      requires Valid() && datalen < 56
      modifies data
      ensures data[..56] == Padded(Message, |Message| - datalen)
    {
      hide Fips.Blocks, Fips.Compress, StateOf, Wrap64;
      ghost var padded := Padded(Message, |Message| - datalen);
      PadZerosOf(|Message|, datalen);
      var i := datalen;
      data[i] := 0x80;
      i := i + 1;
      while i < 56
        invariant datalen < i <= 56 && data[..i] == padded[..i]
      {
        data[i] := 0x00;
        i := i + 1;
      }
    }

    /** The padding when it does not: the block is filled and compressed, and the next one starts with zeros. */
    method PadLong()
      requires Valid() && datalen >= 56
      modifies data, state
      ensures var padded := Padded(Message, |Message| - datalen);
        && |padded| == 120 && data[..56] == padded[64..]
        && StateOf(state[..]) == Fips.Compress(StateOf(old(state[..])), padded[..64])
    {
      hide Fips.Blocks, Fips.Compress, StateOf;
      ghost var padded := Padded(Message, |Message| - datalen);
      PadZerosOf(|Message|, datalen);
      var i := datalen;
      data[i] := 0x80;
      i := i + 1;
      while i < 64
        invariant datalen < i <= 64 && data[..i] == padded[..i] && state[..] == old(state[..])
      {
        data[i] := 0x00;
        i := i + 1;
      }
      assert data[..] == padded[..64];
      Transform(state, data);
      ghost var h := StateOf(state[..]);
      LongPadEndsInZeros(Message, |Message| - datalen);
      ZeroHead();
    }

    /** memset(ctx->data, 0, 56). */
    method ZeroHead()
      requires data.Length == 64
      modifies data
      ensures data[..56] == Zeros(56)
    {
      for j := 0 to 56
        invariant forall t :: 0 <= t < j ==> data[t] == 0
      {
        data[j] := 0;
      }
    }

    method PadBuffer()
      requires Valid()
      modifies data, state
      ensures data[..56] == Ending(Message) && StateOf(state[..]) == Fips.Blocks(Whole(Message))
    {
      hide Fips.Blocks, Fips.Compress, StateOf, Whole, Ending, Padded, Wrap64;
      ghost var n := |Message| - datalen;
      WholeIs(Message);
      if datalen < 56 {
        PadShort();
      } else {
        BlocksAppend(Message[..n], Padded(Message, n)[..64]);
        PadLong();
      }
    }

    /** sha256_final. */
    method Final(hash: array<bv8>, at: nat)
      requires Valid() && |Message| < 0x2000_0000_0000_0000
      requires hash != data && at + 32 <= hash.Length
      modifies this, data, state, hash
      ensures hash[..] == Splice(old(hash[..]), at, Fips.Sha256(old(Message)))
    {
      hide Fips.Blocks, Fips.Pad, Fips.Compress, StateOf, Fips.Digest, Splice;
      CompressLast();
      StoreDigest(hash, at);
    }

    /** The last block of the padded message: the rest of the padding and the length. */
    method CompressLast()
      requires Valid() && |Message| < 0x2000_0000_0000_0000
      modifies this, data, state
      ensures StateOf(state[..]) == Fips.Blocks(Fips.Pad(old(Message)))
    {
      hide Fips.Blocks, Fips.Pad, Fips.Compress, Fips.Length64, StateOf, Wrap64, Ending, Whole;
      BitLength(|Message|, datalen);
      LastBlock(Message);
      PadBuffer();
      bitlen := Wrap64(bitlen + datalen * 8);
      StoreLength();
      Transform(state, data);
    }

    /** The last loop of sha256_final: byte i of every word, for i = 0 .. 3. */
    method StoreDigest(hash: array<bv8>, at: nat)
      requires state.Length == 8 && at + 32 <= hash.Length
      modifies hash
      ensures hash[..] == Splice(old(hash[..]), at, Fips.Digest(StateOf(state[..])))
    {
      hide Fips.WordByte, Splice, DigestUpTo;
      ghost var h, base, d := StateOf(state[..]), hash[..], hash[..][at..at + 32];
      DigestEnds(h, d);
      SpliceSame(base, at, 32);
      ghost var b := d;
      for i := 0 to 4
        invariant b == DigestUpTo(h, d, i, 0)
        invariant hash[..] == Splice(base, at, b)
      {
        DigestNext(h, d, i, 0);
        b := Put(hash, at, i, Fips.WordByte(state[0], i), base, b);
        DigestNext(h, d, i, 1);
        b := Put(hash, at, i + 4, Fips.WordByte(state[1], i), base, b);
        DigestNext(h, d, i, 2);
        b := Put(hash, at, i + 8, Fips.WordByte(state[2], i), base, b);
        DigestNext(h, d, i, 3);
        b := Put(hash, at, i + 12, Fips.WordByte(state[3], i), base, b);
        DigestNext(h, d, i, 4);
        b := Put(hash, at, i + 16, Fips.WordByte(state[4], i), base, b);
        DigestNext(h, d, i, 5);
        b := Put(hash, at, i + 20, Fips.WordByte(state[5], i), base, b);
        DigestNext(h, d, i, 6);
        b := Put(hash, at, i + 24, Fips.WordByte(state[6], i), base, b);
        DigestNext(h, d, i, 7);
        b := Put(hash, at, i + 28, Fips.WordByte(state[7], i), base, b);
        DigestRow(h, d, i);
      }
    }

    /** hash[i] := v, with the 32 bytes of the digest tracked in b. */
    method Put(hash: array<bv8>, at: nat, i: nat, v: bv8, ghost base: bytes, ghost b: bytes) returns (ghost b': bytes)
      requires i < |b| && at + |b| <= |base| && hash[..] == Splice(base, at, b)
      modifies hash
      ensures b' == b[i := v] && hash[..] == Splice(base, at, b')
    {
      SpliceUpdate(base, at, b, i, v);
      hash[at + i] := v;
      b' := b[i := v];
    }
  }

  /** Byte i of the first w words, and every earlier byte of all words, in place. */
  ghost function DigestUpTo(h: Fips.Words8, d: bytes, i: nat, w: nat): (b: bytes)
    requires |d| == 32
    ensures |b| == 32
  {
    seq(32, k requires 0 <= k < 32 =>
      if k % 4 < i || (k % 4 == i && k / 4 < w) then Fips.WordByte(Fips.WordOf(h, k / 4), k % 4) else d[k])
  }

  lemma DigestEnds(h: Fips.Words8, d: bytes)
    requires |d| == 32
    ensures DigestUpTo(h, d, 0, 0) == d
    ensures DigestUpTo(h, d, 4, 0) == Fips.Digest(h)
  {
    hide Fips.WordByte, Fips.WordOf;
  }

  lemma DigestNext(h: Fips.Words8, d: bytes, i: nat, w: nat)
    requires |d| == 32 && i < 4 && w < 8
    ensures DigestUpTo(h, d, i, w + 1) == DigestUpTo(h, d, i, w)[4 * w + i := Fips.WordByte(Fips.WordOf(h, w), i)]
  {
    hide Fips.WordByte, Fips.WordOf;
  }

  lemma DigestRow(h: Fips.Words8, d: bytes, i: nat)
    requires |d| == 32 && i < 4
    ensures DigestUpTo(h, d, i, 8) == DigestUpTo(h, d, i + 1, 0)
  {
    hide Fips.WordByte, Fips.WordOf;
  }

  /** The message from byte n on, up to where the length goes. */
  ghost function Padded(m: bytes, n: nat): (p: bytes)
    requires n <= |m|
  {
    m[n..] + [0x80] + Zeros(Fips.PadZeros(|m|))
  }

  /** The padded message without its last block, and what that block holds before the length. */
  ghost function Whole(m: bytes): (h: bytes)
    ensures |h| % 64 == 0
  {
    var tail := |m| % 64;
    PadZerosOf(|m|, tail);
    var padded := Padded(m, |m| - tail);
    m[..|m| - tail] + padded[..|padded| - 56]
  }

  ghost function Ending(m: bytes): (e: bytes)
    ensures |e| == 56
  {
    var tail := |m| % 64;
    PadZerosOf(|m|, tail);
    var padded := Padded(m, |m| - tail);
    padded[|padded| - 56..]
  }

  lemma WholeIs(m: bytes)
    ensures var tail := |m| % 64; var n := |m| - tail; var padded := Padded(m, n);
      if tail < 56 then |padded| == 56 && Whole(m) == m[..n] && Ending(m) == padded
      else |padded| == 120 && Whole(m) == m[..n] + padded[..64] && Ending(m) == padded[64..]
  {
    var tail := |m| % 64;
    PadZerosOf(|m|, tail);
    assert tail < 56 ==> m[..|m| - tail] + Padded(m, |m| - tail)[..0] == m[..|m| - tail];
  }

  lemma LengthAtEnd(s: bytes, n: nat)
    requires |s| == 64
    requires s[56] == ByteOf(n, 7) && s[57] == ByteOf(n, 6)
    requires s[58] == ByteOf(n, 5) && s[59] == ByteOf(n, 4)
    requires s[60] == ByteOf(n, 3) && s[61] == ByteOf(n, 2)
    requires s[62] == ByteOf(n, 1) && s[63] == ByteOf(n, 0)
    ensures s[56..] == Fips.Length64(n)
  {
    hide ByteOf;
  }

  lemma LongPadEndsInZeros(m: bytes, n: nat)
    requires n <= |m| && |Padded(m, n)| == 120 && |m| - n < 64
    ensures Padded(m, n)[64..] == Zeros(56)
  {
    hide Fips.PadZeros;
  }

  lemma PadZerosOf(length: nat, datalen: nat)
    requires datalen == length % 64
    ensures Fips.PadZeros(length) == if datalen < 56 then 55 - datalen else 119 - datalen
  {
  }

  lemma PadIs(m: bytes, n: nat, padded: bytes, last: bytes)
    requires |m| < 0x2000_0000_0000_0000 && n <= |m| && n % 64 == 0
    requires padded == Padded(m, n) && |padded| >= 56 && |padded| % 64 == 56
    requires last == padded[|padded| - 56..] + Fips.Length64(8 * |m|)
    ensures Fips.Pad(m) == m[..n] + padded[..|padded| - 56] + last
  {
    hide Fips.PadZeros, Fips.Length64;
    assert m == m[..n] + m[n..];
    Regroup(m[..n], m[n..], [0x80], Zeros(Fips.PadZeros(|m|)), Fips.Length64(8 * |m|), |padded| - 56);
  }

  lemma BitLength(length: nat, tail: nat)
    requires length < 0x2000_0000_0000_0000 && tail <= length
    ensures Wrap64(Wrap64(8 * (length - tail)) + tail * 8) == 8 * length
  {
    Wrap64Adds(8 * (length - tail), tail * 8);
    Wrap64Small(8 * length);
  }

  lemma LastBlock(m: bytes)
    requires |m| < 0x2000_0000_0000_0000
    ensures Fips.Blocks(Fips.Pad(m)) == Fips.Compress(Fips.Blocks(Whole(m)), Ending(m) + Fips.Length64(8 * |m|))
  {
    hide Fips.Blocks, Fips.Compress, Fips.Pad, Fips.Length64, Whole, Ending;
    PadSplits(m);
    BlocksAppend(Whole(m), Ending(m) + Fips.Length64(8 * |m|));
  }

  lemma PadSplits(m: bytes)
    requires |m| < 0x2000_0000_0000_0000
    ensures Fips.Pad(m) == Whole(m) + (Ending(m) + Fips.Length64(8 * |m|))
  {
    hide Fips.Pad, Fips.Length64, Padded;
    var n := |m| - |m| % 64;
    WholeMultiple(|m|);
    PaddedLength(m);
    PadIs(m, n, Padded(m, n), Ending(m) + Fips.Length64(8 * |m|));
  }

  lemma WholeMultiple(length: nat)
    ensures (length - length % 64) % 64 == 0
  {
  }

  lemma PaddedLength(m: bytes)
    ensures var padded := Padded(m, |m| - |m| % 64); |padded| == 56 || |padded| == 120
  {
    PadZerosOf(|m|, |m| % 64);
  }

  lemma Regroup(h: bytes, t: bytes, e: bytes, z: bytes, l: bytes, q: nat)
    requires q <= |t + e + z|
    ensures var p := t + e + z; h + t + e + z + l == h + p[..q] + (p[q..] + l)
  {
    var p := t + e + z;
    assert h + t + e + z == h + p;
    assert p == p[..q] + p[q..];
    assert h + (p[..q] + p[q..]) + l == h + p[..q] + (p[q..] + l);
  }
}
