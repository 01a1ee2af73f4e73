/** The cipher, its key schedule and the MAC once more in the form in which their standards print them: FIPS 197 by
  * row, column and byte number, and RFC 4493 as the last block of a CBC encryption.
  */
module AesStandard {
  import opened Bytes
  import opened Gf256
  import opened MixColumn
  import opened Fips197
  import Sbox
  import Cbc
  import Cmac

  /** Section 5.1.2: row r is rotated left by r places. */
  lemma RowsShift(s: Block, r: nat, c: nat)
    requires r < 4 && c < 4
    ensures ShiftRows(s)[4 * c + r] == s[4 * ((c + r) % 4) + r]
  {
    CellAt(c, r);
  }

  // ----- section 4.3: polynomials with coefficients in the field -----

  const A: Column := Column(0x02, 0x01, 0x01, 0x03)
  const B: Column := Column(0x0e, 0x09, 0x0d, 0x0b)

  /** The part of coefficient i of a product modulo x^4 + 1 that coefficient k of the column contributes. */
  function Term(a: Column, s: Column, i: nat, k: nat): bv8
    requires i < 4 && k < 4
  {
    Product(RowOf(s, k), RowOf(a, (i + 4 - k) % 4))
  }

  function Coefficient(a: Column, s: Column, i: nat): bv8
    requires i < 4
  {
    Add4(Term(a, s, i, 0), Term(a, s, i, 1), Term(a, s, i, 2), Term(a, s, i, 3))
  }

  lemma ProductOne(x: bv8)
    ensures Product(x, 0x01) == x
  {
    MultiplyIsProduct(x, 0x01);
  }

  /** Sections 5.1.3 and 5.3.3: a column times {03}x^3 + {01}x^2 + {01}x + {02}, and times
    * {0b}x^3 + {0d}x^2 + {09}x + {0e}.
    */
  lemma ColumnTimesPolynomial(s: Column, i: nat)
    requires i < 4
    ensures RowOf(Mix(s), i) == Coefficient(A, s, i)
    ensures RowOf(InvMix(s), i) == Coefficient(B, s, i)
  {
    hide Product, Add4;
    ProductOne(s.a);
    ProductOne(s.b);
    ProductOne(s.c);
    ProductOne(s.d);
    if i == 0 {
    } else if i == 1 {
    } else if i == 2 {
    } else {
    }
  }

  // ----- section 5.2: the schedule by bytes -----

  const CONSTANTS: seq<bv8> := [0x01, 0x02, 0x04, 0x08, 0x10, 0x20, 0x40, 0x80, 0x1b, 0x36]

  /** What is added to byte r of word i - 4 to make byte r of word i: that of the word before or, for the first word of
    * a round key, its substituted byte one row further down and, in row 0, the constant of the round.
    */
  function Mask(w: RoundKeys, i: nat, r: nat): bv8
    requires 4 <= i < 44 && r < 4
  {
    if i % 4 != 0 then w[4 * (i - 1) + r]
    else Add(Sbox.Sub(w[4 * (i - 1) + (r + 1) % 4]), if r == 0 then CONSTANTS[i / 4 - 1] else 0)
  }

  lemma RoundConstant(i: nat)
    requires 1 <= i <= 10
    ensures Rcon(i) == CONSTANTS[i - 1]
  {
    if i > 1 { RoundConstant(i - 1); }
  }

  lemma ByteOfWord(key: Block, i: nat, r: nat)
    requires i < 44 && r < 4
    ensures KeyExpansion(key)[4 * i + r] == RowOf(Word(key, i), r)
  {
    hide Word;
    CellAt(i, r);
  }

  lemma WordIs(key: Block, i: nat, r: nat)
    requires 4 <= i < 44 && r < 4
    ensures var t := Word(key, i - 1);
      RowOf(Word(key, i), r) == Add(RowOf(Word(key, i - 4), r),
        if i % 4 != 0 then RowOf(t, r)
        else Add(Sbox.Sub(RowOf(t, (r + 1) % 4)), if r == 0 then Rcon(i / 4) else 0))
  {
    hide Sbox.Sub, Add, Rcon;
    var t := Word(key, i - 1);
    AddZero(Sbox.Sub(t.c));
    AddZero(Sbox.Sub(t.d));
    AddZero(Sbox.Sub(t.a));
    if r == 0 {
    } else if r == 1 {
    } else if r == 2 {
    } else {
    }
  }

  /** The whole schedule: the key, and every word behind it from those in front. */
  lemma Schedule(key: Block, i: nat, r: nat)
    requires i < 44 && r < 4
    ensures var w := KeyExpansion(key);
      w[4 * i + r] == if i < 4 then key[4 * i + r] else Add(w[4 * (i - 4) + r], Mask(w, i, r))
  {
    hide Sbox.Sub, Add, KeyExpansion, Rcon, Word, CONSTANTS;
    ByteOfWord(key, i, r);
    if i < 4 {
      FirstWord(key, i, r);
    } else {
      WordIs(key, i, r);
      ByteOfWord(key, i - 4, r);
      if i % 4 == 0 {
        RoundConstant(i / 4);
        ByteOfWord(key, i - 1, (r + 1) % 4);
      } else {
        ByteOfWord(key, i - 1, r);
      }
    }
  }

  lemma FirstWord(key: Block, i: nat, r: nat)
    requires i < 4 && r < 4
    ensures RowOf(Word(key, i), r) == key[4 * i + r]
  {
  }

  // ----- section 5.1: the cipher as a sequence of states -----

  function RoundKey(w: RoundKeys, i: nat): Block
    requires i <= 10
  {
    w[16 * i..16 * i + 16]
  }

  /** The states at the start of the ten rounds. */
  ghost predicate States(input: Block, w: RoundKeys, states: seq<Block>) {
    && |states| == 10
    && states[0] == Xor(input, RoundKey(w, 0))
    && forall i :: 1 <= i < 10 ==> states[i] == Xor(MixColumns(ShiftRows(SubBytes(states[i - 1]))), RoundKey(w, i))
  }

  lemma {:induction false} StateIs(input: Block, w: RoundKeys, states: seq<Block>, i: nat)
    requires States(input, w, states) && i < 10
    ensures Rounds(input, w[..16 * i + 16]) == states[i]
  {
    hide MixColumns, ShiftRows, SubBytes, Xor;
    var v := w[..16 * i + 16];
    if i == 0 {
      assert v == RoundKey(w, 0);
    } else {
      StateIs(input, w, states, i - 1);
      assert v[..|v| - 16] == w[..16 * (i - 1) + 16] && v[|v| - 16..] == RoundKey(w, i);
    }
  }

  /** Nine full rounds, and the last without MixColumns. */
  lemma CipherIsTenRounds(input: Block, w: RoundKeys, states: seq<Block>)
    requires States(input, w, states)
    ensures Cipher(input, w) == Xor(ShiftRows(SubBytes(states[9])), RoundKey(w, 10))
  {
    hide MixColumns, ShiftRows, SubBytes, Xor, Rounds, States;
    StateIs(input, w, states, 9);
    assert w[160..] == RoundKey(w, 10);
  }

  // ----- RFC 4493 -----

  /** How many bytes of a message come before its last block, whole or not. */
  function Front(length: nat): (n: nat)
    ensures n <= length && length - n <= 16 && n % 16 == 0 && (n + 16) % 16 == 0
  {
    if length > 0 && length % 16 == 0 then length - 16 else length - length % 16
  }

  /** Section 2.4: the last block, completed if need be, and masked. */
  function Masked(w: RoundKeys, last: bytes): (b: Block)
    requires |last| <= 16
  {
    if |last| == 16 then Xor(last, Cmac.Subkey1(w)) else Xor(last + [0x80] + Zeros(15 - |last|), Cmac.Subkey2(w))
  }

  function Completed(w: RoundKeys, m: bytes): (p: bytes)
    ensures |p| == Front(|m|) + 16 && |p| % 16 == 0
  {
    hide Front, Masked;
    m[..Front(|m|)] + Masked(w, m[Front(|m|)..])
  }

  lemma {:induction false} ChainIsCbc(w: RoundKeys, x: Block, m: bytes)
    requires |m| % 16 == 0
    ensures Cmac.Chain(w, x, m) == Cbc.Chained(x, Cbc.Encrypt(w, x, m))
    decreases |m|
  {
    hide Cipher, Xor;
    if m == [] {
      assert Cbc.Encrypt(w, x, m) == [] && Cbc.Chained(x, []) == x;
    } else {
      var c := Cipher(Xor(m[..16], x), w);
      ChainIsCbc(w, c, m[16..]);
      Cbc.ChainedAfter(x, c, Cbc.Encrypt(w, c, m[16..]));
    }
  }

  lemma FrontIs(length: nat)
    ensures Front(length) == Cmac.Before(length)
  {
  }

  function Final(c: bytes): (b: Block)
    requires |c| >= 16
  {
    c[|c| - 16..]
  }

  lemma LastOfCbc(w: RoundKeys, front: bytes, last: Block)
    requires |front| % 16 == 0 && |front + last| % 16 == 0
    ensures Final(Cbc.Encrypt(w, ZERO_BLOCK, front + last)) == Cipher(Xor(last, Cmac.Chain(w, ZERO_BLOCK, front)), w)
  {
    hide Cipher, Xor, Cmac.Chain, Cbc.Encrypt;
    var p: bytes := last;
    Cbc.EncryptInPieces(w, ZERO_BLOCK, front, p);
    ChainIsCbc(w, ZERO_BLOCK, front);
    Cbc.EncryptOne(w, Cmac.Chain(w, ZERO_BLOCK, front), last);
  }

  lemma MacIs(w: RoundKeys, m: bytes)
    ensures var n := Cmac.Before(|m|);
      Cmac.Mac(w, m) == Cipher(Xor(Masked(w, m[n..]), Cmac.Chain(w, ZERO_BLOCK, m[..n])), w)
  {
    hide Cipher, Xor, Cmac.Chain, Cmac.Subkey1, Cmac.Subkey2, Cmac.Before;
  }

  /** The MAC is the last block of the CBC encryption, from zero, of the completed message. */
  lemma MacIsLastCbcBlock(w: RoundKeys, m: bytes)
    ensures Cmac.Mac(w, m) == Final(Cbc.Encrypt(w, ZERO_BLOCK, Completed(w, m)))
  {
    hide Cipher, Xor, Cmac.Chain, Cmac.Mac, Cbc.Encrypt, Cmac.Before, Front, Masked, Final;
    FrontIs(|m|);
    MacIs(w, m);
    LastOfCbc(w, m[..Front(|m|)], Masked(w, m[Front(|m|)..]));
  }
}
