/** Byte strings: the exclusive or of two buffers, zero filling, and writing one buffer over part of another. */
module Bytes {
  type bytes = seq<bv8>

  type Block = b: bytes | |b| == 16 witness seq(16, _ => 0)

  function Zeros(n: nat): (z: bytes)
    ensures |z| == n
  {
    seq(n, _ => 0)
  }

  const ZERO_BLOCK: Block := Zeros(16)

  function Xor(a: bytes, b: bytes): (c: bytes)
    requires |a| == |b|
    ensures |c| == |a|
  {
    seq(|a|, i requires 0 <= i < |a| => a[i] ^ b[i])
  }

  lemma XorCancels(a: bytes, b: bytes)
    requires |a| == |b|
    ensures Xor(Xor(a, b), b) == a
  {
    forall i | 0 <= i < |a| ensures Xor(Xor(a, b), b)[i] == a[i] {
      XorByteCancels(a[i], b[i]);
    }
  }

  lemma XorByteCancels(x: bv8, y: bv8)
    ensures (x ^ y) ^ y == x
  {
  }

  lemma XorZero(a: bytes)
    ensures Xor(a, Zeros(|a|)) == a
  {
  }

  /** memcpy(s + at, b, |b|) on values. */
  function Splice(s: bytes, at: nat, b: bytes): (t: bytes)
    requires at + |b| <= |s|
    ensures |t| == |s|
  {
    s[..at] + b + s[at + |b|..]
  }

  lemma SpliceTwice(s: bytes, at: nat, b: bytes, c: bytes)
    requires at + |b| <= |s| && |c| == |b|
    ensures Splice(s, at, b)[at..at + |b|] == b
    ensures Splice(Splice(s, at, b), at, c) == Splice(s, at, c)
  {
  }

  lemma SpliceSame(s: bytes, at: nat, n: nat)
    requires at + n <= |s|
    ensures Splice(s, at, s[at..at + n]) == s
  {
  }

  lemma SpliceUpdate(s: bytes, at: nat, b: bytes, k: nat, v: bv8)
    requires at + |b| <= |s| && k < |b|
    ensures Splice(s, at, b)[at + k := v] == Splice(s, at, b[k := v])
    ensures Splice(s, at, b)[at + k] == b[k]
  {
  }

  /** Writing a continuation, and writing over the head of what was written. */
  lemma SpliceNext(s: bytes, at: nat, p: bytes, q: bytes)
    requires at + |p| + |q| <= |s|
    ensures Splice(Splice(s, at, p), at + |p|, q) == Splice(s, at, p + q)
  {
  }

  lemma SpliceOver(s: bytes, at: nat, p: bytes, q: bytes)
    requires |q| <= |p| && at + |p| <= |s|
    ensures Splice(Splice(s, at, p), at, q) == Splice(s, at, q + p[|q|..])
  {
  }

  lemma SpliceInside(s: bytes, p: bytes, at: nat, q: bytes)
    requires at + |q| <= |p| <= |s|
    ensures Splice(Splice(s, 0, p), at, q) == Splice(s, 0, p[..at] + q + p[at + |q|..])
  {
  }

  /** A buffer that differs from s only by holding b at `at`. */
  lemma SpliceIs(s: bytes, t: bytes, at: nat, b: bytes)
    requires |t| == |s| && at + |b| <= |s|
    requires forall k :: 0 <= k < |b| ==> t[at + k] == b[k]
    requires forall m :: 0 <= m < at || at + |b| <= m < |s| ==> t[m] == s[m]
    ensures t == Splice(s, at, b)
  {
    forall m | 0 <= m < |s| ensures t[m] == Splice(s, at, b)[m] {
      if at <= m < at + |b| {
        assert t[at + (m - at)] == b[m - at];
      }
    }
  }

  /** memcpy. */
  method Copy(to: array<bv8>, at: nat, from: bytes)
    requires at + |from| <= to.Length
    modifies to
    ensures to[..] == Splice(old(to[..]), at, from)
  {
    for i := 0 to |from|
      invariant forall k :: 0 <= k < i ==> to[at + k] == from[k]
      invariant forall m :: 0 <= m < at || at + |from| <= m < to.Length ==> to[m] == old(to[m])
    {
      to[at + i] := from[i];
    }
    SpliceIs(old(to[..]), to[..], at, from);
  }

  /** memset. */
  method Fill(to: array<bv8>, at: nat, n: nat, v: bv8)
    requires at + n <= to.Length
    modifies to
    ensures to[..] == Splice(old(to[..]), at, seq(n, _ => v))
  {
    for i := 0 to n
      invariant forall m :: at <= m < at + i ==> to[m] == v
      invariant forall m :: 0 <= m < at || at + n <= m < to.Length ==> to[m] == old(to[m])
    {
      to[at + i] := v;
    }
    SpliceIs(old(to[..]), to[..], at, seq(n, _ => v));
  }

  // ----- numbers in bytes -----

  function LowByte(n: nat): bv8 {
    (n % 0x100) as bv8
  }

  /** Byte k of a number, counted from the least significant one. */
  function ByteOf(n: nat, k: nat): bv8 {
    if k == 0 then LowByte(n) else ByteOf(n / 0x100, k - 1)
  }

  /** The number that bytes stand for, least significant byte first. */
  function Number(b: bytes): nat {
    if b == [] then 0 else b[0] as nat + 0x100 * Number(b[1..])
  }

  /** And most significant byte first. */
  function NumberBigEndian(b: bytes): nat {
    if b == [] then 0 else 0x100 * NumberBigEndian(b[..|b| - 1]) + b[|b| - 1] as nat
  }

  ghost function Power256(k: nat): (p: nat)
    ensures p > 0
  {
    if k == 0 then 1 else 0x100 * Power256(k - 1)
  }

  function Digit(x: nat): bv8
    requires x < 0x10
  {
    x as bv8
  }

  lemma DigitValue(x: nat)
    requires x < 0x10
    ensures Digit(x) as int == x && Digit(x) < 0x10
  {
  }

  lemma DigitsJoin(h: bv8, l: bv8)
    requires h < 0x10 && l < 0x10
    ensures ((h << 4) | l) >> 4 == h && ((h << 4) | l) & 0x0f == l
  {
  }

  lemma ByteDigits(b: bv8)
    ensures b as int == 0x10 * ((b >> 4) as int) + (b & 0x0f) as int
  {
  }

  lemma HexDigits(n: nat)
    ensures n % 0x100 == 0x10 * (n / 0x10 % 0x10) + n % 0x10
  {
  }

  /** The byte with the value of n modulo 0x100, from its two hexadecimal digits. */
  lemma ByteFor(n: nat) returns (b: bv8)
    ensures b as int == n % 0x100
  {
    hide Digit;
    var h, l := Digit(n / 0x10 % 0x10), Digit(n % 0x10);
    DigitValue(n / 0x10 % 0x10);
    DigitValue(n % 0x10);
    DigitsJoin(h, l);
    b := (h << 4) | l;
    ByteDigits(b);
    HexDigits(n);
  }

  lemma SameByte(b: bv8, x: int)
    requires b as int == x && 0 <= x < 0x100
    ensures x as bv8 == b
  {
  }

  lemma LowByteValue(n: nat)
    ensures LowByte(n) as nat == n % 0x100
  {
    var b := ByteFor(n);
    SameByte(b, n % 0x100);
  }

  lemma {:induction false} BytesOfNumber(n: nat, b: bytes)
    requires n < Power256(|b|) && forall k :: 0 <= k < |b| ==> b[k] == ByteOf(n, k)
    ensures Number(b) == n
    decreases |b|
  {
    hide LowByte;
    if b != [] {
      forall k | 0 <= k < |b| - 1 ensures b[1..][k] == ByteOf(n / 0x100, k) {
        assert b[k + 1] == ByteOf(n, k + 1);
      }
      BytesOfNumber(n / 0x100, b[1..]);
      LowByteValue(n);
    }
  }

  lemma {:induction false} BytesOfNumberBigEndian(n: nat, b: bytes)
    requires n < Power256(|b|) && forall k :: 0 <= k < |b| ==> b[|b| - 1 - k] == ByteOf(n, k)
    ensures NumberBigEndian(b) == n
    decreases |b|
  {
    hide LowByte;
    if b != [] {
      var c := b[..|b| - 1];
      forall k | 0 <= k < |c| ensures c[|c| - 1 - k] == ByteOf(n / 0x100, k) {
        assert b[|b| - 1 - (k + 1)] == ByteOf(n, k + 1);
      }
      BytesOfNumberBigEndian(n / 0x100, c);
      assert b[|b| - 1 - 0] == ByteOf(n, 0);
      LowByteValue(n);
    }
  }
}
