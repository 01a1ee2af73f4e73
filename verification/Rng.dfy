/** The random number generator of cmd56_sm.c: a 16-byte state that is replaced by its own encryption. */
module Rng {
  import opened Bytes
  import opened Fips = Fips197
  import Cbc

  /** The zero block under the state as key. */
  function Next(s: Block): (t: Block) {
    Cipher(ZERO_BLOCK, KeyExpansion(s))
  }

  /** The block of index k, counting the state itself as block 0. */
  function Nth(s: Block, k: nat): (t: Block) {
    if k == 0 then s else Next(Nth(s, k - 1))
  }

  /** The first n bytes of blocks 1, 2, ... */
  function Stream(s: Block, n: nat): (r: bytes)
    ensures |r| == n
  {
    seq(n, i requires 0 <= i < n => Nth(s, i / 16 + 1)[i % 16])
  }

  lemma {:induction false} NthOfNth(s: Block, j: nat, k: nat)
    ensures Nth(Nth(s, j), k) == Nth(s, j + k)
  {
    hide Next;
    if k > 0 {
      NthOfNth(s, j, k - 1);
    }
  }

  /** A call that asks for whole blocks leaves the generator where the next call continues the stream. */
  lemma StreamContinues(s: Block, k: nat, n: nat)
    ensures Stream(s, 16 * k + n) == Stream(s, 16 * k) + Stream(Nth(s, k), n)
  {
    hide Nth;
    forall i: nat | i < n ensures Stream(s, 16 * k + n)[16 * k + i] == Stream(Nth(s, k), n)[i] {
      NthOfNth(s, k, i / 16 + 1);
      assert (16 * k + i) / 16 == k + i / 16 && (16 * k + i) % 16 == i % 16;
    }
  }

  lemma StreamOneBlock(s: Block)
    ensures Stream(s, 16) == Next(s)
  {
    hide Next;
    forall i: nat | i < 16 ensures Stream(s, 16)[i] == Next(s)[i] {
      assert i / 16 == 0 && i % 16 == i;
      assert Nth(s, 1) == Next(Nth(s, 0));
    }
  }

  lemma XorSelf(s: Block)
    ensures Xor(s, s) == ZERO_BLOCK
  {
    forall i | 0 <= i < 16 ensures Xor(s, s)[i] == 0 {
      XorByteSelf(s[i]);
    }
  }

  lemma XorByteSelf(x: bv8)
    ensures x ^ x == 0
  {
  }

  /** Encrypting the state with the state as key and as initialisation vector chains it to itself, which leaves zero. */
  lemma SelfEncryption(s: Block)
    ensures Cbc.Encrypt(KeyExpansion(s), s, s) == Next(s)
  {
    hide Cipher, Xor;
    Cbc.EncryptOne(KeyExpansion(s), s, s);
    XorSelf(s);
  }

  /** The state after seeding: the seed is added to as much of the state as it covers. */
  function Seeded(s: Block, seed: bytes): (t: Block) {
    seq(16, k requires 0 <= k < 16 => if k < |seed| then s[k] ^ seed[k] else s[k])
  }

  /** Seeding twice with the same bytes changes nothing. */
  lemma SeededTwice(s: Block, seed: bytes)
    ensures Seeded(Seeded(s, seed), seed) == s
  {
    forall k | 0 <= k < 16 ensures Seeded(Seeded(s, seed), seed)[k] == s[k] {
      if k < |seed| {
        XorByteCancels(s[k], seed[k]);
      }
    }
  }

  class RandState {
    const state: array<bv8>

    constructor (seed: Block)
      ensures state.Length == 16 && state[..] == seed && fresh(state)
    {
      state := new bv8[16](i requires 0 <= i < 16 => seed[i]);
    }

    /** rand_seed. */
    method Seed(seed: bytes)
      requires state.Length == 16
      modifies state
      ensures state[..] == Seeded(old(state[..]), seed)
    {
      var seedSize := if |seed| < 16 then |seed| else 16;
      for i := 0 to seedSize
        invariant forall k :: 0 <= k < 16 ==> state[k] == if k < i then old(state[k]) ^ seed[k] else old(state[k])
      {
        state[i % 16] := state[i % 16] ^ seed[i];
      }
    }

    /** One pass of the loop before the copy: the key, the buffer and the initialisation vector are the same array. */
    method Cycle()
      requires state.Length == 16
      modifies state
      ensures state[..] == Next(old(state[..]))
    {
      hide Next, Splice, Cbc.Encrypt;
      ghost var s: Block := state[..];
      assert state[..][0..16] == s;
      SelfEncryption(s);
      Cbc.EncryptBufferKey(state[..], state, 0, 16, state[..]);
      WholeState(s, Next(s));
    }

    method RandBytes(buf: array<bv8>, at: nat, size: nat)
      requires state.Length == 16 && buf != state && at + size <= buf.Length
      modifies state, buf
      ensures buf[..] == Splice(old(buf[..]), at, Stream(old(state[..]), size))
      ensures state[..] == Nth(old(state[..]), (size + 15) / 16)
    {
      hide Next, Nth, Splice, Stream;
      ghost var s: Block, base := state[..], buf[..];
      NothingDrawn(s, base, at);
      var i := 0;
      while i < size
        invariant i % 16 == 0 && i <= (size + 15) / 16 * 16
        invariant state[..] == Nth(s, i / 16)
        invariant buf[..] == Splice(base, at, Stream(s, if i < size then i else size))
      {
        var copySize := if size - i < 16 then size - i else 16;
        Cycle();
        ghost var before := buf[..];
        SpliceNothing(before, at + i, Next(Nth(s, i / 16)));
        for k := 0 to copySize
          invariant state[..] == Next(Nth(s, i / 16))
          invariant buf[..] == Splice(before, at + i, Next(Nth(s, i / 16))[..k])
        {
          CopyOneMore(before, at + i, Next(Nth(s, i / 16)), k);
          assert state[k] == state[..][k];
          buf[at + i + k] := state[k];
        }
        DrawnMore(s, base, at, i, copySize);
        i := i + 16;
      }
    }
  }

  lemma WholeState(s: Block, t: Block)
    ensures Splice(s, 0, t) == t
  {
  }

  lemma NothingDrawn(s: Block, base: bytes, at: nat)
    requires at <= |base|
    ensures Splice(base, at, Stream(s, 0)) == base
    ensures Nth(s, 0) == s
  {
  }

  lemma SpliceNothing(s: bytes, at: nat, b: Block)
    requires at <= |s|
    ensures Splice(s, at, b[..0]) == s
  {
  }

  lemma CopyOneMore(before: bytes, at: nat, b: Block, k: nat)
    requires k < 16 && at + k < |before|
    ensures Splice(before, at, b[..k])[at + k := b[k]] == Splice(before, at, b[..k + 1])
  {
  }

  lemma DrawnMore(s: Block, base: bytes, at: nat, i: nat, n: nat)
    requires i % 16 == 0 && n <= 16 && at + i + n <= |base|
    ensures Next(Nth(s, i / 16)) == Nth(s, i / 16 + 1)
    ensures Splice(Splice(base, at, Stream(s, i)), at + i, Next(Nth(s, i / 16))[..n])
         == Splice(base, at, Stream(s, i + n))
  {
    hide Next;
    var b := Next(Nth(s, i / 16));
    forall k: nat | k < n ensures Stream(s, i + n)[i + k] == b[k] {
      assert (i + k) / 16 == i / 16 && (i + k) % 16 == k;
    }
    assert Stream(s, i + n) == Stream(s, i) + b[..n];
  }
}
