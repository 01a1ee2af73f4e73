/** AES-128 as FIPS 197 defines it, on values, and the proof that decryption undoes encryption for every block and
  * every round-key array. Byte 4 * c + r of a block is row r of column c of the state.
  */
module Fips197 {
  import opened Bytes
  import opened Gf256
  import opened MixColumn
  import Sbox

  type RoundKeys = w: bytes | |w| == 176 witness Zeros(176)

  // ----- section 5.1: the four transformations -----

  function SubBytes(s: Block): (t: Block) {
    seq(16, k requires 0 <= k < 16 => Sbox.Sub(s[k]))
  }

  /** The number of the column, modulo the four columns. */
  function Wrap(c: nat): (d: nat)
    requires c < 8
    ensures d < 4
  {
    if c < 4 then c else c - 4
  }

  /** Row r of column c comes from row r of the column that is r places to the right. */
  function RightOf(k: nat): (j: nat)
    requires k < 16
    ensures j < 16
  {
    4 * Wrap(k / 4 + k % 4) + k % 4
  }

  function ShiftRows(s: Block): (t: Block) {
    seq(16, k requires 0 <= k < 16 => s[RightOf(k)])
  }

  function ColumnAt(s: Block, c: nat): Column
    requires c < 4
  {
    Column(s[4 * c], s[4 * c + 1], s[4 * c + 2], s[4 * c + 3])
  }

  function RowOf(c: Column, r: nat): bv8
    requires r < 4
  {
    if r == 0 then c.a else if r == 1 then c.b else if r == 2 then c.c else c.d
  }

  function MixColumns(s: Block): (t: Block) {
    seq(16, k requires 0 <= k < 16 => RowOf(Mix(ColumnAt(s, k / 4)), k % 4))
  }

  function AddRoundKey(s: Block, w: Block): (t: Block) {
    Xor(s, w)
  }

  /** The state after the initial AddRoundKey and one full round for each further round key in w. */
  function Rounds(s: Block, w: bytes): (t: Block)
    requires |w| >= 16 && |w| % 16 == 0
    decreases |w|
  {
    if |w| == 16 then AddRoundKey(s, w)
    else AddRoundKey(MixColumns(ShiftRows(SubBytes(Rounds(s, w[..|w| - 16])))), w[|w| - 16..])
  }

  function Cipher(s: Block, w: RoundKeys): (t: Block)
    ensures |t| == 16
  {
    AddRoundKey(ShiftRows(SubBytes(Rounds(s, w[..160]))), w[160..])
  }

  // ----- section 5.3: the inverse cipher -----

  function InvSubBytes(s: Block): (t: Block) {
    seq(16, k requires 0 <= k < 16 => Sbox.InvSub(s[k]))
  }

  function LeftOf(k: nat): (j: nat)
    requires k < 16
    ensures j < 16
  {
    4 * Wrap(k / 4 + 4 - k % 4) + k % 4
  }

  function InvShiftRows(s: Block): (t: Block) {
    seq(16, k requires 0 <= k < 16 => s[LeftOf(k)])
  }

  function InvMixColumns(s: Block): (t: Block) {
    seq(16, k requires 0 <= k < 16 => RowOf(InvMix(ColumnAt(s, k / 4)), k % 4))
  }

  function InvRounds(s: Block, w: bytes): (t: Block)
    requires |w| >= 16 && |w| % 16 == 0
    decreases |w|
  {
    var u := AddRoundKey(InvSubBytes(InvShiftRows(s)), w[|w| - 16..]);
    if |w| == 16 then u else InvRounds(InvMixColumns(u), w[..|w| - 16])
  }

  function InvCipher(s: Block, w: RoundKeys): (t: Block)
    ensures |t| == 16
  {
    InvRounds(AddRoundKey(s, w[160..]), w[..160])
  }

  // ----- section 5.2: the key schedule -----

  function RotWord(t: Column): Column {
    Column(t.b, t.c, t.d, t.a)
  }

  function SubWord(t: Column): Column {
    Column(Sbox.Sub(t.a), Sbox.Sub(t.b), Sbox.Sub(t.c), Sbox.Sub(t.d))
  }

  /** The round constants are the powers of x in the field. */
  function Rcon(i: nat): bv8
    requires i >= 1
  {
    if i == 1 then 0x01 else Xtime(Rcon(i - 1))
  }

  function Word(key: Block, i: nat): Column {
    if i < 4 then ColumnAt(key, i)
    else
      var t := Word(key, i - 1);
      Plus(Word(key, i - 4), if i % 4 == 0 then Plus(SubWord(RotWord(t)), Column(Rcon(i / 4), 0, 0, 0)) else t)
  }

  /** The first n words of the schedule, as bytes. */
  function Words(key: Block, n: nat): (w: bytes)
    ensures |w| == 4 * n
  {
    seq(4 * n, k requires 0 <= k < 4 * n => RowOf(Word(key, k / 4), k % 4))
  }

  function KeyExpansion(key: Block): (w: RoundKeys) {
    Words(key, 44)
  }

  // ----- each transformation has an inverse -----

  lemma SubBytesInverse(s: Block)
    ensures InvSubBytes(SubBytes(s)) == s
    ensures SubBytes(InvSubBytes(s)) == s
  {
    hide Sbox.Sub, Sbox.InvSub;
    forall k | 0 <= k < 16
      ensures InvSubBytes(SubBytes(s))[k] == s[k]
      ensures SubBytes(InvSubBytes(s))[k] == s[k]
    {
      Sbox.TablesInverse(s[k]);
    }
  }

  lemma TurnBack(c: nat, r: nat)
    requires c < 4 && r < 4
    ensures Wrap(Wrap(c + r) + 4 - r) == c
    ensures Wrap(Wrap(c + 4 - r) + r) == c
  {
  }

  lemma LeftOfRight(k: nat)
    requires k < 16
    ensures LeftOf(RightOf(k)) == k
    ensures RightOf(LeftOf(k)) == k
  {
    RightThenLeft(k);
    LeftThenRight(k);
  }

  lemma RightThenLeft(k: nat)
    requires k < 16
    ensures LeftOf(RightOf(k)) == k
  {
    hide Wrap;
    CellAt(Wrap(k / 4 + k % 4), k % 4);
    TurnBack(k / 4, k % 4);
  }

  lemma LeftThenRight(k: nat)
    requires k < 16
    ensures RightOf(LeftOf(k)) == k
  {
    hide Wrap;
    CellAt(Wrap(k / 4 + 4 - k % 4), k % 4);
    TurnBack(k / 4, k % 4);
  }

  lemma CellAt(c: nat, r: nat)
    requires r < 4
    ensures (4 * c + r) / 4 == c && (4 * c + r) % 4 == r
  {
  }

  lemma ShiftRowsInverse(s: Block)
    ensures InvShiftRows(ShiftRows(s)) == s
    ensures ShiftRows(InvShiftRows(s)) == s
  {
    hide LeftOf, RightOf;
    forall k: nat | k < 16
      ensures InvShiftRows(ShiftRows(s))[k] == s[k]
      ensures ShiftRows(InvShiftRows(s))[k] == s[k]
    {
      LeftOfRight(k);
    }
  }

  lemma ColumnOfMix(s: Block, c: nat)
    requires c < 4
    ensures ColumnAt(MixColumns(s), c) == Mix(ColumnAt(s, c))
    ensures ColumnAt(InvMixColumns(s), c) == InvMix(ColumnAt(s, c))
  {
    hide Mix, InvMix;
    CellAt(c, 0);
    CellAt(c, 1);
    CellAt(c, 2);
    CellAt(c, 3);
  }

  lemma MixColumnsInverse(s: Block)
    ensures InvMixColumns(MixColumns(s)) == s
    ensures MixColumns(InvMixColumns(s)) == s
  {
    hide Mix, InvMix;
    forall k: nat | k < 16
      ensures InvMixColumns(MixColumns(s))[k] == s[k]
      ensures MixColumns(InvMixColumns(s))[k] == s[k]
    {
      ColumnOfMix(s, k / 4);
      InvMixOfMix(ColumnAt(s, k / 4));
      MixOfInvMix(ColumnAt(s, k / 4));
      RowOfColumn(s, k);
    }
  }

  lemma RowOfColumn(s: Block, k: nat)
    requires k < 16
    ensures RowOf(ColumnAt(s, k / 4), k % 4) == s[k]
  {
  }

  // ----- the ciphers are inverse to each other -----

  lemma {:induction false} InvRoundsOfRounds(s: Block, w: bytes)
    requires |w| >= 16 && |w| % 16 == 0
    ensures InvRounds(ShiftRows(SubBytes(Rounds(s, w))), w) == s
    decreases |w|
  {
    hide SubBytes, ShiftRows, MixColumns, InvSubBytes, InvShiftRows, InvMixColumns, Xor;
    var r := Rounds(s, w);
    ShiftRowsInverse(SubBytes(r));
    SubBytesInverse(r);
    if |w| == 16 {
      XorCancels(s, w);
    } else {
      var before := ShiftRows(SubBytes(Rounds(s, w[..|w| - 16])));
      XorCancels(MixColumns(before), w[|w| - 16..]);
      MixColumnsInverse(before);
      InvRoundsOfRounds(s, w[..|w| - 16]);
    }
  }

  lemma {:induction false} RoundsOfInvRounds(s: Block, w: bytes)
    requires |w| >= 16 && |w| % 16 == 0
    ensures ShiftRows(SubBytes(Rounds(InvRounds(s, w), w))) == s
    decreases |w|
  {
    hide SubBytes, ShiftRows, MixColumns, InvSubBytes, InvShiftRows, InvMixColumns, Xor;
    var t := InvSubBytes(InvShiftRows(s));
    var u := AddRoundKey(t, w[|w| - 16..]);
    XorCancels(t, w[|w| - 16..]);
    if |w| == 16 {
    } else {
      RoundsOfInvRounds(InvMixColumns(u), w[..|w| - 16]);
      MixColumnsInverse(u);
    }
    SubBytesInverse(InvShiftRows(s));
    ShiftRowsInverse(s);
  }

  /** Sections 5.1 and 5.3: for every block and every array of round keys, each cipher undoes the other. */
  lemma CipherInverse(s: Block, w: RoundKeys)
    ensures InvCipher(Cipher(s, w), w) == s
    ensures Cipher(InvCipher(s, w), w) == s
  {
    hide SubBytes, ShiftRows, Xor, Rounds, InvRounds;
    XorCancels(ShiftRows(SubBytes(Rounds(s, w[..160]))), w[160..]);
    InvRoundsOfRounds(s, w[..160]);
    XorCancels(s, w[160..]);
    RoundsOfInvRounds(AddRoundKey(s, w[160..]), w[..160]);
  }
}
