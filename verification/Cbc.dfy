/** Cipher block chaining (section 6.2 of SP 800-38A) over AES-128: the mode on values, what it means to decrypt in
  * pieces, and the in-place buffer functions of aes.c.
  */
module Cbc {
  import opened Bytes
  import opened Fips = Fips197
  import Aes

  function Encrypt(w: RoundKeys, iv: Block, p: bytes): (c: bytes)
    requires |p| % 16 == 0
    ensures |c| == |p|
    decreases |p|
  {
    if p == [] then [] else
      var c := Cipher(Xor(p[..16], iv), w);
      c + Encrypt(w, c, p[16..])
  }

  function Decrypt(w: RoundKeys, iv: Block, c: bytes): (p: bytes)
    requires |c| % 16 == 0
    ensures |p| == |c|
    decreases |c|
  {
    if c == [] then [] else Xor(InvCipher(c[..16], w), iv) + Decrypt(w, c[..16], c[16..])
  }

  /** What the next block is chained to. */
  function Chained(iv: Block, c: bytes): (b: Block)
    requires |c| % 16 == 0
  {
    if c == [] then iv else c[|c| - 16..]
  }

  function BlockOf(s: bytes, j: nat): (b: Block)
    requires 16 * (j + 1) <= |s|
  {
    s[16 * j..16 * (j + 1)]
  }

  lemma BlockBehind(b: Block, s: bytes, j: nat)
    requires 1 <= j && 16 * j <= |s|
    ensures BlockOf(b + s, j) == BlockOf(s, j - 1)
  {
    assert (b + s)[16 * j..16 * (j + 1)] == s[16 * j - 16..16 * (j + 1) - 16];
  }

  /** SP 800-38A: ciphertext block j is the cipher of plaintext block j plus ciphertext block j - 1. */
  lemma {:induction false} EncryptBlocks(w: RoundKeys, iv: Block, p: bytes, j: nat)
    requires |p| % 16 == 0 && 16 * (j + 1) <= |p|
    ensures var c := Encrypt(w, iv, p);
      BlockOf(c, j) == Cipher(Xor(BlockOf(p, j), if j == 0 then iv else BlockOf(c, j - 1)), w)
    decreases |p|
  {
    hide Cipher, Xor;
    var c := Cipher(Xor(p[..16], iv), w);
    if j > 0 {
      EncryptBlocks(w, c, p[16..], j - 1);
      BlockBehind(p[..16], p[16..], j);
      BlockBehind(c, Encrypt(w, c, p[16..]), j);
      assert p == p[..16] + p[16..];
      if j > 1 {
        BlockBehind(c, Encrypt(w, c, p[16..]), j - 1);
      }
    }
  }

  lemma {:induction false} DecryptEncrypt(w: RoundKeys, iv: Block, p: bytes)
    requires |p| % 16 == 0
    ensures Decrypt(w, iv, Encrypt(w, iv, p)) == p
    decreases |p|
  {
    hide Cipher, InvCipher, Xor;
    if p != [] {
      var c: bytes := Cipher(Xor(p[..16], iv), w);
      var rest := Encrypt(w, c, p[16..]);
      assert (c + rest)[..16] == c && (c + rest)[16..] == rest;
      CipherInverse(Xor(p[..16], iv), w);
      XorCancels(p[..16], iv);
      DecryptEncrypt(w, c, p[16..]);
    }
  }

  lemma {:induction false} EncryptDecrypt(w: RoundKeys, iv: Block, c: bytes)
    requires |c| % 16 == 0
    ensures Encrypt(w, iv, Decrypt(w, iv, c)) == c
    decreases |c|
  {
    hide Cipher, InvCipher, Xor;
    if c != [] {
      var p := Xor(InvCipher(c[..16], w), iv);
      var rest := Decrypt(w, c[..16], c[16..]);
      assert (p + rest)[..16] == p && (p + rest)[16..] == rest;
      XorCancels(InvCipher(c[..16], w), iv);
      CipherInverse(c[..16], w);
      EncryptDecrypt(w, c[..16], c[16..]);
    }
  }

  /** Decrypting in consecutive pieces, each with the chaining block of the one before, is decrypting the whole. */
  lemma DecryptCons(w: RoundKeys, iv: Block, b: Block, s: bytes)
    requires |s| % 16 == 0
    ensures Decrypt(w, iv, b + s) == Xor(InvCipher(b, w), iv) + Decrypt(w, b, s)
  {
    hide InvCipher, Xor;
    var c: bytes := b;
    assert (c + s)[..16] == c && (c + s)[16..] == s;
  }

  lemma {:induction false} DecryptInPieces(w: RoundKeys, iv: Block, c: bytes, d: bytes)
    requires |c| % 16 == 0 && |d| % 16 == 0
    ensures Decrypt(w, iv, c + d) == Decrypt(w, iv, c) + Decrypt(w, Chained(iv, c), d)
    decreases |c|
  {
    hide InvCipher, Xor, Decrypt;
    Nothing(w, iv);
    if c == [] {
      assert c + d == d && [] + Decrypt(w, iv, d) == Decrypt(w, iv, d);
    } else {
      var b: Block, s := c[..16], c[16..];
      assert c == b + s && c + d == b + (s + d);
      DecryptCons(w, iv, b, s);
      DecryptCons(w, iv, b, s + d);
      DecryptInPieces(w, b, s, d);
      ChainedAfter(iv, b, s);
    }
  }

  lemma ChainedAfter(iv: Block, c: Block, d: bytes)
    requires |d| % 16 == 0
    ensures Chained(iv, c + d) == Chained(c, d)
  {
    var e: bytes := c;
    if d == [] {
      assert e + d == e;
    } else {
      assert (e + d)[|e + d| - 16..] == d[|d| - 16..];
    }
  }

  lemma {:induction false} EncryptInPieces(w: RoundKeys, iv: Block, p: bytes, q: bytes)
    requires |p| % 16 == 0 && |q| % 16 == 0
    ensures Encrypt(w, iv, p + q) == Encrypt(w, iv, p) + Encrypt(w, Chained(iv, Encrypt(w, iv, p)), q)
    decreases |p|
  {
    hide Cipher, Xor;
    if p == [] {
      assert p + q == q;
    } else {
      var c := Cipher(Xor(p[..16], iv), w);
      assert (p + q)[..16] == p[..16] && (p + q)[16..] == p[16..] + q;
      EncryptInPieces(w, c, p[16..], q);
      ChainedAfter(iv, c, Encrypt(w, c, p[16..]));
    }
  }

  /** Any whole number of leading ciphertext blocks decrypts to the same number of leading plaintext blocks. */
  lemma DecryptPrefix(w: RoundKeys, iv: Block, p: bytes, n: nat)
    requires |p| % 16 == 0 && n % 16 == 0 && n <= |p|
    ensures Decrypt(w, iv, Encrypt(w, iv, p)[..n]) == p[..n]
  {
    hide Encrypt, Decrypt;
    assert p == p[..n] + p[n..];
    EncryptInPieces(w, iv, p[..n], p[n..]);
    assert Encrypt(w, iv, p)[..n] == Encrypt(w, iv, p[..n]);
    DecryptEncrypt(w, iv, p[..n]);
  }

  // ----- aes.c -----

  method XorWithIv(buf: array<bv8>, at: nat, iv: array<bv8>, ivAt: nat)
    requires at + 16 <= buf.Length && ivAt + 16 <= iv.Length
    requires iv == buf ==> ivAt + 16 <= at
    modifies buf
    ensures buf[..] == Splice(old(buf[..]), at, Xor(old(buf[at..at + 16]), old(iv[ivAt..ivAt + 16])))
  {
    ghost var s, v := buf[at..at + 16], iv[ivAt..ivAt + 16];
    for i := 0 to 16
      invariant forall k :: 0 <= k < i ==> buf[at + k] == s[k] ^ v[k]
      invariant forall k :: i <= k < 16 ==> buf[at + k] == s[k]
      invariant iv[ivAt..ivAt + 16] == v
      invariant forall m :: 0 <= m < at || at + 16 <= m < buf.Length ==> buf[m] == old(buf[m])
    {
      assert iv[ivAt + i] == iv[ivAt..ivAt + 16][i];
      buf[at + i] := buf[at + i] ^ iv[ivAt + i];
    }
    SpliceIs(old(buf[..]), buf[..], at, Xor(s, v));
  }

  /** The value a pointer to an initialisation vector stands for; NULL is all zeros. */
  ghost function IvOf(iv: array?<bv8>): (b: Block)
    requires iv != null ==> iv.Length == 16
    reads iv
  {
    if iv == null then ZERO_BLOCK else iv[..]
  }

  /** The first two lines of the encryption loop. */
  method EncryptBlock(w: RoundKeys, buf: array<bv8>, at: nat, iv: array<bv8>, ivAt: nat)
    requires at + 16 <= buf.Length && ivAt + 16 <= iv.Length
    requires iv == buf ==> ivAt + 16 <= at
    modifies buf
    ensures buf[..] == Splice(old(buf[..]), at, Cipher(Xor(old(buf[..])[at..at + 16], old(iv[..])[ivAt..ivAt + 16]), w))
    ensures buf[..][at..at + 16] == Cipher(Xor(old(buf[..])[at..at + 16], old(iv[..])[ivAt..ivAt + 16]), w)
  {
    hide Cipher, Xor;
    ghost var base, x: Block := buf[..], Xor(buf[at..at + 16], iv[ivAt..ivAt + 16]);
    assert buf[at..at + 16] == buf[..][at..at + 16] && iv[ivAt..ivAt + 16] == iv[..][ivAt..ivAt + 16];
    XorWithIv(buf, at, iv, ivAt);
    SpliceTwice(base, at, x, Cipher(x, w));
    assert buf[at..at + 16] == buf[..][at..at + 16];
    Aes.Cipher(buf, at, w);
    SpliceTwice(base, at, Cipher(x, w), Cipher(x, w));
  }

  /** The buffer t holds a + b at `at`: what is found there, and what replacing the head of b leaves. */
  lemma Advance(t: bytes, base: bytes, at: nat, a: bytes, b: bytes, x: Block)
    requires at + |a| + |b| <= |base| && |b| >= 16 && t == Splice(base, at, a + b)
    ensures t[at + |a|..at + |a| + 16] == b[..16]
    ensures Splice(t, at + |a|, x) == Splice(base, at, (a + x) + b[16..])
  {
  }

  /** The body of the encryption loop, wherever the previous ciphertext block is. */
  method EncryptNext(w: RoundKeys, buf: array<bv8>, at: nat, i: nat, ivp: array<bv8>, ivAt: nat,
                     ghost base: bytes, ghost v0: Block, ghost p: bytes)
    requires i % 16 == 0 && i + 16 <= |p| && |p| % 16 == 0 && at + |p| <= buf.Length == |base|
    requires ivAt + 16 <= ivp.Length && (ivp == buf ==> ivAt + 16 <= at + i)
    requires ivp[..][ivAt..ivAt + 16] == Chained(v0, Encrypt(w, v0, p[..i]))
    requires buf[..] == Splice(base, at, Encrypt(w, v0, p[..i]) + p[i..])
    modifies buf
    ensures buf[..] == Splice(base, at, Encrypt(w, v0, p[..i + 16]) + p[i + 16..])
    ensures buf[..][at + i..at + i + 16] == Chained(v0, Encrypt(w, v0, p[..i + 16]))
  {
    hide Cipher, Xor, Splice, Encrypt, Chained;
    EncryptAdvances(w, buf[..], base, at, v0, p, i);
    EncryptBlock(w, buf, at + i, ivp, ivAt);
  }

  method EncryptBuffer(w: RoundKeys, buf: array<bv8>, at: nat, length: nat, iv: array?<bv8>)
    requires at + length <= buf.Length && length % 16 == 0
    requires iv != null ==> iv.Length == 16 && iv != buf
    modifies buf
    ensures buf[..] == Splice(old(buf[..]), at, Encrypt(w, old(IvOf(iv)), old(buf[..])[at..at + length]))
  {
    hide Cipher, Xor, Splice, Encrypt, Chained;
    var ivv := new bv8[16](_ => 0);
    var ivp: array<bv8>, ivAt := ivv, 0;
    if iv != null {
      ivp := iv;
    }
    ghost var base, v0: Block, p := buf[..], ivp[..], buf[..][at..at + length];
    assert v0 == IvOf(iv);
    StartAt(w, v0, base, at, p);
    var i := 0;
    while i < length
      invariant 0 <= i <= length && i % 16 == 0
      invariant ivAt + 16 <= ivp.Length && (ivp == buf ==> ivAt + 16 <= at + i)
      invariant ivp[..][ivAt..ivAt + 16] == Chained(v0, Encrypt(w, v0, p[..i]))
      invariant buf[..] == Splice(base, at, Encrypt(w, v0, p[..i]) + p[i..])
    {
      EncryptNext(w, buf, at, i, ivp, ivAt, base, v0, p);
      ivp, ivAt := buf, at + i;
      i := i + 16;
    }
  }

  /** The loops start with nothing done and end with nothing left. */
  lemma StartAt(w: RoundKeys, iv: Block, base: bytes, at: nat, p: bytes)
    requires at + |p| <= |base| && p == base[at..at + |p|] && |p| % 16 == 0
    ensures base == Splice(base, at, Encrypt(w, iv, p[..0]) + p[0..])
    ensures base == Splice(base, at, Decrypt(w, iv, p[..0]) + p[0..])
    ensures Encrypt(w, iv, p[..|p|]) + p[|p|..] == Encrypt(w, iv, p)
    ensures Decrypt(w, iv, p[..|p|]) + p[|p|..] == Decrypt(w, iv, p)
    ensures Chained(iv, p[..0]) == Chained(iv, Encrypt(w, iv, p[..0])) == iv
  {
    hide Encrypt, Decrypt, Splice;
    Nothing(w, iv);
    SpliceSame(base, at, |p|);
    assert p[..0] == [];
    assert [] + p[0..] == p;
    assert p[..|p|] == p && p[|p|..] == [];
    assert Encrypt(w, iv, p) + [] == Encrypt(w, iv, p);
    assert Decrypt(w, iv, p) + [] == Decrypt(w, iv, p);
  }

  lemma Nothing(w: RoundKeys, iv: Block)
    ensures Encrypt(w, iv, []) == [] && Decrypt(w, iv, []) == []
  {
  }

  /** One pass of the encryption loop, on values. */
  lemma EncryptAdvances(w: RoundKeys, t: bytes, base: bytes, at: nat, iv: Block, p: bytes, i: nat)
    requires |p| % 16 == 0 && i % 16 == 0 && i + 16 <= |p| && at + |p| <= |base|
    requires t == Splice(base, at, Encrypt(w, iv, p[..i]) + p[i..])
    ensures var x := Cipher(Xor(t[at + i..at + i + 16], Chained(iv, Encrypt(w, iv, p[..i]))), w);
      Splice(t, at + i, x) == Splice(base, at, Encrypt(w, iv, p[..i + 16]) + p[i + 16..])
      && x == Chained(iv, Encrypt(w, iv, p[..i + 16]))
  {
    hide Cipher, Xor, Splice;
    var done := Encrypt(w, iv, p[..i]);
    var x: Block := Cipher(Xor(p[i..i + 16], Chained(iv, done)), w);
    assert p[i..][..16] == p[i..i + 16] && p[i..][16..] == p[i + 16..];
    Advance(t, base, at, done, p[i..], x);
    EncryptStep(w, iv, p, i);
    var y: bytes := x;
    assert (done + y)[i..] == y;
  }

  lemma EncryptStep(w: RoundKeys, iv: Block, p: bytes, i: nat)
    requires i % 16 == 0 && i + 16 <= |p|
    ensures var c := Encrypt(w, iv, p[..i]);
      Encrypt(w, iv, p[..i + 16]) == c + Cipher(Xor(p[i..i + 16], Chained(iv, c)), w)
  {
    hide Cipher, Xor;
    var q := p[i..i + 16];
    assert p[..i + 16] == p[..i] + q;
    EncryptInPieces(w, iv, p[..i], q);
    EncryptOne(w, Chained(iv, Encrypt(w, iv, p[..i])), q);
  }

  lemma EncryptOne(w: RoundKeys, iv: Block, q: Block)
    ensures Encrypt(w, iv, q) == Cipher(Xor(q, iv), w)
  {
    hide Cipher, Xor;
    assert q[..16] == q && q[16..] == [];
  }

  /** The body of the decryption loop: the ciphertext block moves into the initialisation vector. */
  method DecryptBlock(w: RoundKeys, buf: array<bv8>, at: nat, iv: array<bv8>)
    requires at + 16 <= buf.Length && iv.Length == 16 && iv != buf
    modifies buf, iv
    ensures buf[..] == Splice(old(buf[..]), at, Xor(InvCipher(old(buf[..])[at..at + 16], w), old(iv[..])))
    ensures iv[..] == old(buf[..])[at..at + 16]
  {
    hide InvCipher, Xor;
    assert buf[at..at + 16] == buf[..][at..at + 16];
    ghost var base, v := buf[..], iv[..];
    var storeNextIv: Block := buf[at..at + 16];
    Aes.InvCipher(buf, at, w);
    ghost var x := InvCipher(storeNextIv, w);
    SpliceTwice(base, at, x, Xor(x, v));
    assert buf[at..at + 16] == buf[..][at..at + 16];
    assert iv[0..16] == v;
    XorWithIv(buf, at, iv, 0);
    for k := 0 to 16
      invariant iv[..k] == storeNextIv[..k]
      invariant buf[..] == Splice(base, at, Xor(x, v))
    {
      iv[k] := storeNextIv[k];
    }
  }

  method DecryptBlocks(w: RoundKeys, buf: array<bv8>, at: nat, length: nat, iv: array<bv8>)
    requires at + length <= buf.Length && length % 16 == 0
    requires iv.Length == 16 && iv != buf
    modifies buf, iv
    ensures buf[..] == Splice(old(buf[..]), at, Decrypt(w, old(iv[..]), old(buf[..])[at..at + length]))
    ensures iv[..] == Chained(old(iv[..]), old(buf[..])[at..at + length])
  {
    hide InvCipher, Xor, Splice, Decrypt, Chained;
    ghost var base, v0: Block, c := buf[..], iv[..], buf[..][at..at + length];
    StartAt(w, v0, base, at, c);
    var i := 0;
    while i < length
      invariant 0 <= i <= length && i % 16 == 0
      invariant iv[..] == Chained(v0, c[..i])
      invariant buf[..] == Splice(base, at, Decrypt(w, v0, c[..i]) + c[i..])
    {
      DecryptAdvances(w, buf[..], base, at, v0, c, i);
      DecryptBlock(w, buf, at + i, iv);
      i := i + 16;
    }
    assert c[..length] == c;
  }

  method DecryptBuffer(w: RoundKeys, buf: array<bv8>, at: nat, length: nat, iv: array?<bv8>)
    requires at + length <= buf.Length && length % 16 == 0
    requires iv != null ==> iv.Length == 16 && iv != buf
    modifies buf, iv
    ensures buf[..] == Splice(old(buf[..]), at, Decrypt(w, old(IvOf(iv)), old(buf[..])[at..at + length]))
    ensures iv != null ==> iv[..] == Chained(old(IvOf(iv)), old(buf[..])[at..at + length])
  {
    hide Decrypt, Splice, Chained;
    if iv == null {
      var ivv := new bv8[16](_ => 0);
      assert ivv[..] == ZERO_BLOCK;
      DecryptBlocks(w, buf, at, length, ivv);
    } else {
      DecryptBlocks(w, buf, at, length, iv);
    }
  }

  /** One pass of the decryption loop, on values. */
  lemma DecryptAdvances(w: RoundKeys, t: bytes, base: bytes, at: nat, iv: Block, c: bytes, i: nat)
    requires |c| % 16 == 0 && i % 16 == 0 && i + 16 <= |c| && at + |c| <= |base|
    requires t == Splice(base, at, Decrypt(w, iv, c[..i]) + c[i..])
    ensures Splice(t, at + i, Xor(InvCipher(t[at + i..at + i + 16], w), Chained(iv, c[..i])))
         == Splice(base, at, Decrypt(w, iv, c[..i + 16]) + c[i + 16..])
    ensures Chained(iv, c[..i + 16]) == t[at + i..at + i + 16]
  {
    hide InvCipher, Xor, Splice;
    var done := Decrypt(w, iv, c[..i]);
    var x: Block := Xor(InvCipher(c[i..i + 16], w), Chained(iv, c[..i]));
    assert c[i..][..16] == c[i..i + 16] && c[i..][16..] == c[i + 16..];
    Advance(t, base, at, done, c[i..], x);
    DecryptStep(w, iv, c, i);
    assert c[..i + 16][i..] == c[i..i + 16];
  }

  lemma DecryptStep(w: RoundKeys, iv: Block, c: bytes, i: nat)
    requires i % 16 == 0 && i + 16 <= |c|
    ensures Decrypt(w, iv, c[..i + 16])
         == Decrypt(w, iv, c[..i]) + Xor(InvCipher(c[i..i + 16], w), Chained(iv, c[..i]))
  {
    hide InvCipher, Xor;
    var d := c[i..i + 16];
    assert c[..i + 16] == c[..i] + d;
    DecryptInPieces(w, iv, c[..i], d);
    DecryptOne(w, Chained(iv, c[..i]), d);
  }

  lemma DecryptOne(w: RoundKeys, iv: Block, d: Block)
    ensures Decrypt(w, iv, d) == Xor(InvCipher(d, w), iv)
  {
    hide InvCipher, Xor;
    assert d[..16] == d && d[16..] == [];
  }

  /** AES_CBC_decrypt_buffer_key: the caller's initialisation vector is copied, so it is not written. */
  method DecryptBufferKey(key: Block, buf: array<bv8>, at: nat, length: nat, iv: Block)
    requires at + length <= buf.Length && length % 16 == 0
    modifies buf
    ensures buf[..] == Splice(old(buf[..]), at, Decrypt(KeyExpansion(key), iv, old(buf[..])[at..at + length]))
  {
    var ivCopy := new bv8[16](i requires 0 <= i < 16 => iv[i]);
    assert ivCopy[..] == iv;
    var w := Aes.InitCtx(key);
    DecryptBuffer(w, buf, at, length, ivCopy);
  }

  method EncryptBufferKey(key: Block, buf: array<bv8>, at: nat, length: nat, iv: Block)
    requires at + length <= buf.Length && length % 16 == 0
    modifies buf
    ensures buf[..] == Splice(old(buf[..]), at, Encrypt(KeyExpansion(key), iv, old(buf[..])[at..at + length]))
  {
    var ivCopy := new bv8[16](i requires 0 <= i < 16 => iv[i]);
    assert ivCopy[..] == iv;
    var w := Aes.InitCtx(key);
    EncryptBuffer(w, buf, at, length, ivCopy);
  }
}
