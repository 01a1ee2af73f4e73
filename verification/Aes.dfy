/** The AES code of aes.c on buffers: the 4 x 4 state is the 16 bytes of `buf` from `at` on, and every function works
  * in place. Each is proved to do what FIPS 197 says and to leave the rest of the buffer alone.
  */
module Aes {
  import opened Bytes
  import opened Gf256
  import opened MixColumn
  import Fips = Fips197
  import Sbox

  const RCON: seq<bv8> := [0x8d, 0x01, 0x02, 0x04, 0x08, 0x10, 0x20, 0x40, 0x80, 0x1b, 0x36]

  lemma RconIsPower(i: nat)
    requires 1 <= i <= 10
    ensures RCON[i] == Fips.Rcon(i)
  {
    if i > 1 { RconIsPower(i - 1); }
  }

  /** The first loop of KeyExpansion: the first round key is the key itself. */
  method CopyKey(roundKey: array<bv8>, key: Block)
    requires roundKey.Length == 176
    modifies roundKey
    ensures roundKey[..16] == key
  {
    for i := 0 to 4
      invariant forall k :: 0 <= k < 4 * i ==> roundKey[k] == key[k]
    {
      roundKey[4 * i] := key[4 * i];
      roundKey[4 * i + 1] := key[4 * i + 1];
      roundKey[4 * i + 2] := key[4 * i + 2];
      roundKey[4 * i + 3] := key[4 * i + 3];
    }
  }

  method KeyExpansion(roundKey: array<bv8>, key: Block)
    requires roundKey.Length == 176
    modifies roundKey
    ensures roundKey[..] == Fips.KeyExpansion(key)
  {
    hide Sbox.Sub, Add, Fips.Word, Fips.Rcon, Fips.Words, Plus;
    CopyKey(roundKey, key);
    FirstWords(key);
    var i := 4;
    while i < 44
      invariant 4 <= i <= 44
      invariant roundKey[..4 * i] == Fips.Words(key, i)
    {
      var tempa := Tempa(roundKey, i, key);
      WordAt(key, roundKey[..4 * i], i, i - 4, (i - 4) * 4);
      StoreWord(roundKey, i * 4, (i - 4) * 4, tempa);
      WordsNext(key, i, roundKey[..4 * i + 4]);
      i := i + 1;
    }
    assert roundKey[..] == roundKey[..176];
  }

  /** The first part of the loop body: the previous word, rotated and substituted for every fourth word. */
  method Tempa(roundKey: array<bv8>, i: nat, ghost key: Block) returns (tempa: Column)
    requires 4 <= i < 44 && roundKey.Length == 176
    requires roundKey[..4 * i] == Fips.Words(key, i)
    ensures Fips.Word(key, i) == Plus(Fips.Word(key, i - 4), tempa)
  {
    hide Sbox.Sub, Add, Fips.Word, Fips.Rcon, Fips.Words, Plus;
    var k := (i - 1) * 4;
    var t0, t1, t2, t3 := roundKey[k], roundKey[k + 1], roundKey[k + 2], roundKey[k + 3];
    WordAt(key, roundKey[..4 * i], i, i - 1, k);
    if i % 4 == 0 {
      var u := t0;
      t0, t1, t2, t3 := t1, t2, t3, u;
      t0, t1, t2, t3 := Sbox.Sub(t0), Sbox.Sub(t1), Sbox.Sub(t2), Sbox.Sub(t3);
      RconIsPower(i / 4);
      t0 := Add(t0, RCON[i / 4]);
    }
    tempa := Column(t0, t1, t2, t3);
    NextWord(key, i, tempa);
  }

  /** The last four lines of the loop body: the word at j is the word at k plus tempa. */
  method StoreWord(roundKey: array<bv8>, j: nat, k: nat, tempa: Column)
    requires k + 4 <= j && j + 4 <= roundKey.Length
    modifies roundKey
    ensures roundKey[..j] == old(roundKey[..j])
    ensures Column(roundKey[j], roundKey[j + 1], roundKey[j + 2], roundKey[j + 3])
         == Plus(old(Column(roundKey[k], roundKey[k + 1], roundKey[k + 2], roundKey[k + 3])), tempa)
  {
    hide Add;
    roundKey[j] := Add(roundKey[k], tempa.a);
    roundKey[j + 1] := Add(roundKey[k + 1], tempa.b);
    roundKey[j + 2] := Add(roundKey[k + 2], tempa.c);
    roundKey[j + 3] := Add(roundKey[k + 3], tempa.d);
  }

  lemma FirstWords(key: Block)
    ensures Fips.Words(key, 4) == key
  {
  }

  lemma ByteOfWord(key: Block, n: nat, j: nat, r: nat)
    requires j < n && r < 4
    ensures Fips.Words(key, n)[4 * j + r] == Fips.RowOf(Fips.Word(key, j), r)
  {
    hide Fips.Word;
    Fips.CellAt(j, r);
  }

  /** The word stored from byte k on in a prefix of the schedule. */
  lemma WordAt(key: Block, w: bytes, n: nat, j: nat, k: nat)
    requires j < n && k == 4 * j && w == Fips.Words(key, n)
    ensures Column(w[k], w[k + 1], w[k + 2], w[k + 3]) == Fips.Word(key, j)
  {
    hide Fips.Word, Fips.Words;
    ByteOfWord(key, n, j, 0);
    ByteOfWord(key, n, j, 1);
    ByteOfWord(key, n, j, 2);
    ByteOfWord(key, n, j, 3);
  }

  lemma WordsNext(key: Block, n: nat, w: bytes)
    requires |w| == 4 * n + 4 && w[..4 * n] == Fips.Words(key, n)
    requires Column(w[4 * n], w[4 * n + 1], w[4 * n + 2], w[4 * n + 3]) == Fips.Word(key, n)
    ensures w == Fips.Words(key, n + 1)
  {
    hide Fips.Word;
    forall k | 0 <= k < |w| ensures w[k] == Fips.Words(key, n + 1)[k] {
      if k < 4 * n {
        assert w[k] == w[..4 * n][k];
      }
    }
  }

  lemma NextWord(key: Block, i: nat, temp: Column)
    requires i >= 4
    requires var t := Fips.Word(key, i - 1);
      temp == if i % 4 == 0 then
          Column(Add(Sbox.Sub(t.b), Fips.Rcon(i / 4)), Sbox.Sub(t.c), Sbox.Sub(t.d), Sbox.Sub(t.a))
        else t
    ensures Fips.Word(key, i) == Plus(Fips.Word(key, i - 4), temp)
  {
    hide Sbox.Sub, Add;
    var t := Fips.Word(key, i - 1);
    AddZero(Sbox.Sub(t.c));
    AddZero(Sbox.Sub(t.d));
    AddZero(Sbox.Sub(t.a));
  }

  /** AES_init_ctx: the context is the expanded key. */
  method InitCtx(key: Block) returns (ctx: Fips.RoundKeys)
    ensures ctx == Fips.KeyExpansion(key)
  {
    var roundKey := new bv8[176];
    KeyExpansion(roundKey, key);
    ctx := roundKey[..];
  }

  // ----- the state as bytes at .. at + 16 of the buffer -----

  /** Reads byte k of the state; b is the state and base the buffer before the cipher started to work on it. */
  method Get(buf: array<bv8>, at: nat, k: nat, ghost base: bytes, ghost b: Block) returns (v: bv8)
    requires k < 16 && at + 16 <= |base| && buf[..] == Splice(base, at, b)
    ensures v == b[k]
  {
    SpliceUpdate(base, at, b, k, 0);
    v := buf[at + k];
  }

  method Set(buf: array<bv8>, at: nat, k: nat, v: bv8, ghost base: bytes, ghost b: Block) returns (ghost b': Block)
    requires k < 16 && at + 16 <= |base| && buf[..] == Splice(base, at, b)
    modifies buf
    ensures b' == b[k := v]
    ensures buf[..] == Splice(base, at, b')
  {
    SpliceUpdate(base, at, b, k, v);
    buf[at + k] := v;
    b' := b[k := v];
  }

  method AddRoundKey(round: nat, buf: array<bv8>, at: nat, w: Fips.RoundKeys)
    requires round <= 10 && at + 16 <= buf.Length
    modifies buf
    ensures buf[..] == Splice(old(buf[..]), at, Fips.AddRoundKey(old(buf[at..at + 16]), w[16 * round..16 * round + 16]))
  {
    ghost var s: Block := buf[at..at + 16];
    for i := 0 to 4
      invariant forall k :: 0 <= k < 4 * i ==> buf[at + k] == s[k] ^ w[16 * round + k]
      invariant forall k :: 4 * i <= k < 16 ==> buf[at + k] == s[k]
      invariant forall m :: 0 <= m < at || at + 16 <= m < buf.Length ==> buf[m] == old(buf[m])
    {
      for j := 0 to 4
        invariant forall k :: 0 <= k < 4 * i + j ==> buf[at + k] == s[k] ^ w[16 * round + k]
        invariant forall k :: 4 * i + j <= k < 16 ==> buf[at + k] == s[k]
        invariant forall m :: 0 <= m < at || at + 16 <= m < buf.Length ==> buf[m] == old(buf[m])
      {
        buf[at + 4 * i + j] := buf[at + 4 * i + j] ^ w[round * 4 * 4 + i * 4 + j];
      }
    }
    SpliceIs(old(buf[..]), buf[..], at, Fips.AddRoundKey(s, w[16 * round..16 * round + 16]));
  }

  /** The state after the first i rows, and the first j bytes of row i, went through the table f. */
  ghost function Substituted(f: bv8 -> bv8, s: Block, i: nat, j: nat): (t: Block) {
    seq(16, k requires 0 <= k < 16 => if k % 4 < i || (k % 4 == i && k / 4 < j) then f(s[k]) else s[k])
  }

  lemma SubstitutedNext(f: bv8 -> bv8, s: Block, i: nat, j: nat)
    requires i < 4 && j < 4
    ensures Substituted(f, s, i, j)[4 * j + i] == s[4 * j + i]
    ensures Substituted(f, s, i, j + 1) == Substituted(f, s, i, j)[4 * j + i := f(s[4 * j + i])]
    ensures Substituted(f, s, i, 4) == Substituted(f, s, i + 1, 0)
    ensures Substituted(f, s, 0, 0) == s
  {
  }

  method SubBytes(buf: array<bv8>, at: nat)
    requires at + 16 <= buf.Length
    modifies buf
    ensures buf[..] == Splice(old(buf[..]), at, Fips.SubBytes(old(buf[at..at + 16])))
  {
    hide Sbox.Sub;
    ghost var s: Block, b := buf[at..at + 16], buf[..];
    for i := 0 to 4
      invariant buf[..] == Splice(b, at, Substituted(Sbox.Sub, s, i, 0))
    {
      for j := 0 to 4
        invariant buf[..] == Splice(b, at, Substituted(Sbox.Sub, s, i, j))
      {
        SubstitutedNext(Sbox.Sub, s, i, j);
        SpliceUpdate(b, at, Substituted(Sbox.Sub, s, i, j), 4 * j + i, Sbox.Sub(s[4 * j + i]));
        buf[at + 4 * j + i] := Sbox.Sub(buf[at + 4 * j + i]);
      }
      SubstitutedNext(Sbox.Sub, s, i, 0);
    }
    assert Substituted(Sbox.Sub, s, 4, 0) == Fips.SubBytes(s);
  }

  /** Row r turned, the other rows as they were. */
  ghost function LeftTurned(s: Block, r: nat): (t: Block) {
    seq(16, k requires 0 <= k < 16 => if k % 4 == r then s[Fips.RightOf(k)] else s[k])
  }

  lemma LeftTurned1(s: Block)
    ensures s[1 := s[5]][5 := s[9]][9 := s[13]][13 := s[1]] == LeftTurned(s, 1)
  {
  }

  lemma LeftTurned2(s: Block)
    ensures s[2 := s[10]][10 := s[2]][6 := s[14]][14 := s[6]] == LeftTurned(s, 2)
  {
  }

  lemma LeftTurned3(s: Block)
    ensures s[3 := s[15]][15 := s[11]][11 := s[7]][7 := s[3]] == LeftTurned(s, 3)
  {
  }

  lemma LeftTurnedAll(s: Block)
    ensures LeftTurned(LeftTurned(LeftTurned(s, 1), 2), 3) == Fips.ShiftRows(s)
  {
  }

  method ShiftRows(buf: array<bv8>, at: nat)
    requires at + 16 <= buf.Length
    modifies buf
    ensures buf[..] == Splice(old(buf[..]), at, Fips.ShiftRows(old(buf[at..at + 16])))
  {
    hide Splice, LeftTurned;
    ghost var s: Block, base := buf[at..at + 16], buf[..];
    ghost var b := s;
    SpliceSame(base, at, 16);
    var v;
    LeftTurned1(b);
    var temp := Get(buf, at, 1, base, b);
    v := Get(buf, at, 5, base, b);
    b := Set(buf, at, 1, v, base, b);
    v := Get(buf, at, 9, base, b);
    b := Set(buf, at, 5, v, base, b);
    v := Get(buf, at, 13, base, b);
    b := Set(buf, at, 9, v, base, b);
    b := Set(buf, at, 13, temp, base, b);
    assert b == LeftTurned(s, 1);
    LeftTurned2(b);
    temp := Get(buf, at, 2, base, b);
    v := Get(buf, at, 10, base, b);
    b := Set(buf, at, 2, v, base, b);
    b := Set(buf, at, 10, temp, base, b);
    temp := Get(buf, at, 6, base, b);
    v := Get(buf, at, 14, base, b);
    b := Set(buf, at, 6, v, base, b);
    b := Set(buf, at, 14, temp, base, b);
    assert b == LeftTurned(LeftTurned(s, 1), 2);
    LeftTurned3(b);
    temp := Get(buf, at, 3, base, b);
    v := Get(buf, at, 15, base, b);
    b := Set(buf, at, 3, v, base, b);
    v := Get(buf, at, 11, base, b);
    b := Set(buf, at, 15, v, base, b);
    v := Get(buf, at, 7, base, b);
    b := Set(buf, at, 11, v, base, b);
    b := Set(buf, at, 7, temp, base, b);
    assert b == LeftTurned(LeftTurned(LeftTurned(s, 1), 2), 3);
    LeftTurnedAll(s);
  }

  /** The state after the first i columns were multiplied by the matrix. */
  ghost function Mixed(s: Block, i: nat): (t: Block) {
    seq(16, k requires 0 <= k < 16 => if k / 4 < i then Fips.RowOf(Mix(Fips.ColumnAt(s, k / 4)), k % 4) else s[k])
  }

  lemma MixedNext(s: Block, i: nat, m: Column)
    requires i < 4 && m == Mix(Fips.ColumnAt(s, i))
    ensures Mixed(s, i + 1) == ColumnOver(Mixed(s, i), i, m)
  {
    hide Mix;
    ColumnWritten(Mixed(s, i), Mixed(s, i + 1), i, m);
  }

  /** Writing one column, byte by byte. */
  function ColumnOver(b: Block, i: nat, m: Column): (t: Block)
    requires i < 4
  {
    b[4 * i := m.a][4 * i + 1 := m.b][4 * i + 2 := m.c][4 * i + 3 := m.d]
  }

  lemma ColumnWritten(b: Block, c: Block, i: nat, m: Column)
    requires i < 4
    requires forall k :: 0 <= k < 16 ==> c[k] == if k / 4 == i then Fips.RowOf(m, k % 4) else b[k]
    ensures c == ColumnOver(b, i, m)
  {
    var t := ColumnOver(b, i, m);
    forall k | 0 <= k < 16 ensures c[k] == t[k] {
      if k / 4 == i {
        assert k == 4 * i || k == 4 * i + 1 || k == 4 * i + 2 || k == 4 * i + 3;
        Fips.CellAt(i, k - 4 * i);
      }
    }
  }

  lemma MixedEnds(s: Block)
    ensures Mixed(s, 0) == s
    ensures Mixed(s, 4) == Fips.MixColumns(s)
  {
    hide Mix;
  }

  lemma MixedColumn(s: Block, i: nat)
    requires i < 4
    ensures var b := Mixed(s, i); Column(b[4 * i], b[4 * i + 1], b[4 * i + 2], b[4 * i + 3]) == Fips.ColumnAt(s, i)
  {
    hide Mix;
  }

  method MixColumns(buf: array<bv8>, at: nat)
    requires at + 16 <= buf.Length
    modifies buf
    ensures buf[..] == Splice(old(buf[..]), at, Fips.MixColumns(old(buf[at..at + 16])))
  {
    hide Mixed, Splice;
    ghost var s: Block, base := buf[at..at + 16], buf[..];
    SpliceSame(base, at, 16);
    MixedEnds(s);
    for i := 0 to 4
      invariant buf[..] == Splice(base, at, Mixed(s, i))
    {
      MixColumnInPlace(buf, at, i, base, s);
    }
  }

  /** The body of the loop in MixColumns. */
  method MixColumnInPlace(buf: array<bv8>, at: nat, i: nat, ghost base: bytes, ghost s: Block)
    requires at + 16 <= buf.Length == |base| && i < 4 && buf[..] == Splice(base, at, Mixed(s, i))
    modifies buf
    ensures buf[..] == Splice(base, at, Mixed(s, i + 1))
  {
    hide Add, Xtime, Mixed, Product, Splice;
    ghost var b := Mixed(s, i);
    MixedColumn(s, i);
    MixedNext(s, i, Mix(Fips.ColumnAt(s, i)));
    var s0 := Get(buf, at, 4 * i, base, b);
    var s1 := Get(buf, at, 4 * i + 1, base, b);
    var s2 := Get(buf, at, 4 * i + 2, base, b);
    var s3 := Get(buf, at, 4 * i + 3, base, b);
    MixInPlace(s0, s1, s2, s3);
    var t := s0;
    var sum := Add(Add(Add(s0, s1), s2), s3);
    var double := Xtime(Add(s0, s1));
    b := Set(buf, at, 4 * i, Add(s0, Add(double, sum)), base, b);
    double := Xtime(Add(s1, s2));
    b := Set(buf, at, 4 * i + 1, Add(s1, Add(double, sum)), base, b);
    double := Xtime(Add(s2, s3));
    b := Set(buf, at, 4 * i + 2, Add(s2, Add(double, sum)), base, b);
    double := Xtime(Add(s3, t));
    b := Set(buf, at, 4 * i + 3, Add(s3, Add(double, sum)), base, b);
  }

  /** What the four lines of the loop leave in a column. */
  lemma MixInPlace(s0: bv8, s1: bv8, s2: bv8, s3: bv8)
    ensures var sum := Add4(s0, s1, s2, s3); Mix(Column(s0, s1, s2, s3)) == Column(
        Add(s0, Add(Xtime(Add(s0, s1)), sum)),
        Add(s1, Add(Xtime(Add(s1, s2)), sum)),
        Add(s2, Add(Xtime(Add(s2, s3)), sum)),
        Add(s3, Add(Xtime(Add(s3, s0)), sum)))
  {
    hide Add4, Xtime, Product;
    Add4Rotates(s0, s1, s2, s3);
    MixInOnePass(s0, s1, s2, s3);
    MixInOnePass(s1, s2, s3, s0);
    MixInOnePass(s2, s3, s0, s1);
    MixInOnePass(s3, s0, s1, s2);
    Add4Rotates(Product(s1, 0x02), Product(s2, 0x03), s3, s0);
    Add4Rotates(Product(s2, 0x02), Product(s3, 0x03), s0, s1);
    Add4Rotates(Product(s3, 0x02), Product(s0, 0x03), s1, s2);
  }

  method Cipher(buf: array<bv8>, at: nat, w: Fips.RoundKeys)
    requires at + 16 <= buf.Length
    modifies buf
    ensures buf[..] == Splice(old(buf[..]), at, Fips.Cipher(old(buf[at..at + 16]), w))
  {
    hide Splice, Fips.SubBytes, Fips.ShiftRows, Fips.MixColumns, Xor;
    ghost var s: Block, base := buf[at..at + 16], buf[..];
    AddRoundKey(0, buf, at, w);
    assert w[..16] == w[0..16];
    var round := 1;
    while true
      invariant 1 <= round <= 10
      invariant buf[..] == Splice(base, at, Fips.Rounds(s, w[..16 * round]))
      decreases 10 - round
    {
      StateOf(buf, base, at, Fips.Rounds(s, w[..16 * round]));
      SubBytes(buf, at);
      StateOf(buf, base, at, Fips.SubBytes(Fips.Rounds(s, w[..16 * round])));
      ShiftRows(buf, at);
      StateOf(buf, base, at, Fips.ShiftRows(Fips.SubBytes(Fips.Rounds(s, w[..16 * round]))));
      if round == 10 {
        break;
      }
      MixColumns(buf, at);
      StateOf(buf, base, at, Fips.MixColumns(Fips.ShiftRows(Fips.SubBytes(Fips.Rounds(s, w[..16 * round])))));
      AddRoundKey(round, buf, at, w);
      NextRound(s, w, round);
      round := round + 1;
    }
    AddRoundKey(10, buf, at, w);
    assert w[160..] == w[160..176];
  }

  /** One more assignment to the state replaces the state and nothing else. */
  lemma StateOf(buf: array<bv8>, base: bytes, at: nat, b: Block)
    requires at + 16 <= |base| && buf[..] == Splice(base, at, b)
    ensures at + 16 <= buf.Length && buf[at..at + 16] == b
    ensures forall c: Block :: Splice(buf[..], at, c) == Splice(base, at, c)
  {
    forall c: Block ensures Splice(buf[..], at, c) == Splice(base, at, c) {
      SpliceTwice(base, at, b, c);
    }
    SpliceTwice(base, at, b, b);
    assert buf[at..at + 16] == buf[..][at..at + 16];
  }

  lemma NextRound(s: Block, w: Fips.RoundKeys, round: nat)
    requires 1 <= round < 10
    ensures Fips.Rounds(s, w[..16 * (round + 1)]) == Fips.AddRoundKey(
        Fips.MixColumns(Fips.ShiftRows(Fips.SubBytes(Fips.Rounds(s, w[..16 * round])))), w[16 * round..16 * round + 16])
  {
    hide Fips.SubBytes, Fips.ShiftRows, Fips.MixColumns, Xor;
    var v := w[..16 * (round + 1)];
    assert v[..|v| - 16] == w[..16 * round];
    assert v[|v| - 16..] == w[16 * round..16 * round + 16];
  }

  // ----- the inverse cipher -----

  method InvSubBytes(buf: array<bv8>, at: nat)
    requires at + 16 <= buf.Length
    modifies buf
    ensures buf[..] == Splice(old(buf[..]), at, Fips.InvSubBytes(old(buf[at..at + 16])))
  {
    hide Sbox.InvSub;
    ghost var s: Block, b := buf[at..at + 16], buf[..];
    for i := 0 to 4
      invariant buf[..] == Splice(b, at, Substituted(Sbox.InvSub, s, i, 0))
    {
      for j := 0 to 4
        invariant buf[..] == Splice(b, at, Substituted(Sbox.InvSub, s, i, j))
      {
        SubstitutedNext(Sbox.InvSub, s, i, j);
        SpliceUpdate(b, at, Substituted(Sbox.InvSub, s, i, j), 4 * j + i, Sbox.InvSub(s[4 * j + i]));
        buf[at + 4 * j + i] := Sbox.InvSub(buf[at + 4 * j + i]);
      }
      SubstitutedNext(Sbox.InvSub, s, i, 0);
    }
    assert Substituted(Sbox.InvSub, s, 4, 0) == Fips.InvSubBytes(s);
  }

  /** Row r turned, the other rows as they were. */
  ghost function RightTurned(s: Block, r: nat): (t: Block) {
    seq(16, k requires 0 <= k < 16 => if k % 4 == r then s[Fips.LeftOf(k)] else s[k])
  }

  lemma RightTurned1(s: Block)
    ensures s[13 := s[9]][9 := s[5]][5 := s[1]][1 := s[13]] == RightTurned(s, 1)
  {
  }

  lemma RightTurned2(s: Block)
    ensures s[2 := s[10]][10 := s[2]][6 := s[14]][14 := s[6]] == RightTurned(s, 2)
  {
  }

  lemma RightTurned3(s: Block)
    ensures s[3 := s[7]][7 := s[11]][11 := s[15]][15 := s[3]] == RightTurned(s, 3)
  {
  }

  lemma RightTurnedAll(s: Block)
    ensures RightTurned(RightTurned(RightTurned(s, 1), 2), 3) == Fips.InvShiftRows(s)
  {
  }

  method InvShiftRows(buf: array<bv8>, at: nat)
    requires at + 16 <= buf.Length
    modifies buf
    ensures buf[..] == Splice(old(buf[..]), at, Fips.InvShiftRows(old(buf[at..at + 16])))
  {
    hide Splice, RightTurned;
    ghost var s: Block, base := buf[at..at + 16], buf[..];
    ghost var b := s;
    SpliceSame(base, at, 16);
    var v;
    RightTurned1(b);
    var temp := Get(buf, at, 13, base, b);
    v := Get(buf, at, 9, base, b);
    b := Set(buf, at, 13, v, base, b);
    v := Get(buf, at, 5, base, b);
    b := Set(buf, at, 9, v, base, b);
    v := Get(buf, at, 1, base, b);
    b := Set(buf, at, 5, v, base, b);
    b := Set(buf, at, 1, temp, base, b);
    assert b == RightTurned(s, 1);
    RightTurned2(b);
    temp := Get(buf, at, 2, base, b);
    v := Get(buf, at, 10, base, b);
    b := Set(buf, at, 2, v, base, b);
    b := Set(buf, at, 10, temp, base, b);
    temp := Get(buf, at, 6, base, b);
    v := Get(buf, at, 14, base, b);
    b := Set(buf, at, 6, v, base, b);
    b := Set(buf, at, 14, temp, base, b);
    assert b == RightTurned(RightTurned(s, 1), 2);
    RightTurned3(b);
    temp := Get(buf, at, 3, base, b);
    v := Get(buf, at, 7, base, b);
    b := Set(buf, at, 3, v, base, b);
    v := Get(buf, at, 11, base, b);
    b := Set(buf, at, 7, v, base, b);
    v := Get(buf, at, 15, base, b);
    b := Set(buf, at, 11, v, base, b);
    b := Set(buf, at, 15, temp, base, b);
    assert b == RightTurned(RightTurned(RightTurned(s, 1), 2), 3);
    RightTurnedAll(s);
  }

  ghost function InvMixed(s: Block, i: nat): (t: Block) {
    seq(16, k requires 0 <= k < 16 => if k / 4 < i then Fips.RowOf(InvMix(Fips.ColumnAt(s, k / 4)), k % 4) else s[k])
  }

  lemma InvMixedNext(s: Block, i: nat, m: Column)
    requires i < 4 && m == InvMix(Fips.ColumnAt(s, i))
    ensures InvMixed(s, i + 1) == ColumnOver(InvMixed(s, i), i, m)
  {
    hide InvMix;
    ColumnWritten(InvMixed(s, i), InvMixed(s, i + 1), i, m);
  }

  lemma InvMixedEnds(s: Block)
    ensures InvMixed(s, 0) == s
    ensures InvMixed(s, 4) == Fips.InvMixColumns(s)
  {
    hide InvMix;
  }

  lemma InvMixedColumn(s: Block, i: nat)
    requires i < 4
    ensures var b := InvMixed(s, i); Column(b[4 * i], b[4 * i + 1], b[4 * i + 2], b[4 * i + 3]) == Fips.ColumnAt(s, i)
  {
    hide InvMix;
  }

  method InvMixColumns(buf: array<bv8>, at: nat)
    requires at + 16 <= buf.Length
    modifies buf
    ensures buf[..] == Splice(old(buf[..]), at, Fips.InvMixColumns(old(buf[at..at + 16])))
  {
    hide InvMixed, Splice;
    ghost var s: Block, base := buf[at..at + 16], buf[..];
    SpliceSame(base, at, 16);
    InvMixedEnds(s);
    for i := 0 to 4
      invariant buf[..] == Splice(base, at, InvMixed(s, i))
    {
      InvMixColumnInPlace(buf, at, i, base, s);
    }
  }

  /** The body of the loop in InvMixColumns. */
  method InvMixColumnInPlace(buf: array<bv8>, at: nat, i: nat, ghost base: bytes, ghost s: Block)
    requires at + 16 <= buf.Length == |base| && i < 4 && buf[..] == Splice(base, at, InvMixed(s, i))
    modifies buf
    ensures buf[..] == Splice(base, at, InvMixed(s, i + 1))
  {
    hide Add, InvMixed, Product, Multiply, Splice;
    ghost var st := InvMixed(s, i);
    InvMixedColumn(s, i);
    InvMixedNext(s, i, InvMix(Fips.ColumnAt(s, i)));
    var a := Get(buf, at, 4 * i, base, st);
    var b := Get(buf, at, 4 * i + 1, base, st);
    var c := Get(buf, at, 4 * i + 2, base, st);
    var d := Get(buf, at, 4 * i + 3, base, st);
    MultiplyFactors(a);
    MultiplyFactors(b);
    MultiplyFactors(c);
    MultiplyFactors(d);
    st := Set(buf, at, 4 * i, Add4(Multiply(a, 0x0e), Multiply(b, 0x0b), Multiply(c, 0x0d), Multiply(d, 0x09)),
              base, st);
    st := Set(buf, at, 4 * i + 1, Add4(Multiply(a, 0x09), Multiply(b, 0x0e), Multiply(c, 0x0b), Multiply(d, 0x0d)),
              base, st);
    st := Set(buf, at, 4 * i + 2, Add4(Multiply(a, 0x0d), Multiply(b, 0x09), Multiply(c, 0x0e), Multiply(d, 0x0b)),
              base, st);
    st := Set(buf, at, 4 * i + 3, Add4(Multiply(a, 0x0b), Multiply(b, 0x0d), Multiply(c, 0x09), Multiply(d, 0x0e)),
              base, st);
  }

  lemma MultiplyFactors(x: bv8)
    ensures Multiply(x, 0x09) == Product(x, 0x09)
    ensures Multiply(x, 0x0b) == Product(x, 0x0b)
    ensures Multiply(x, 0x0d) == Product(x, 0x0d)
    ensures Multiply(x, 0x0e) == Product(x, 0x0e)
  {
    hide Multiply, Product;
    MultiplyIsProduct(x, 0x09);
    MultiplyIsProduct(x, 0x0b);
    MultiplyIsProduct(x, 0x0d);
    MultiplyIsProduct(x, 0x0e);
  }

  method InvCipher(buf: array<bv8>, at: nat, w: Fips.RoundKeys)
    requires at + 16 <= buf.Length
    modifies buf
    ensures buf[..] == Splice(old(buf[..]), at, Fips.InvCipher(old(buf[at..at + 16]), w))
  {
    hide Splice, Fips.InvSubBytes, Fips.InvShiftRows, Fips.InvMixColumns, Fips.AddRoundKey, Fips.InvRounds,
      Fips.InvCipher;
    ghost var s: Block, base := buf[at..at + 16], buf[..];
    AddRoundKey(10, buf, at, w);
    LastRoundKey(s, w);
    var round := 9;
    ghost var b := Fips.AddRoundKey(s, w[160..]);
    while true
      invariant 0 <= round <= 9
      invariant buf[..] == Splice(base, at, b)
      invariant Fips.InvRounds(b, w[..16 * (round + 1)]) == Fips.InvCipher(s, w)
      decreases round
    {
      PreviousRound(b, w, round);
      StateOf(buf, base, at, b);
      InvShiftRows(buf, at);
      b := Fips.InvShiftRows(b);
      StateOf(buf, base, at, b);
      InvSubBytes(buf, at);
      b := Fips.InvSubBytes(b);
      StateOf(buf, base, at, b);
      AddRoundKey(round, buf, at, w);
      b := Fips.AddRoundKey(b, w[16 * round..16 * round + 16]);
      if round == 0 {
        break;
      }
      StateOf(buf, base, at, b);
      InvMixColumns(buf, at);
      b := Fips.InvMixColumns(b);
      round := round - 1;
    }
  }

  lemma LastRoundKey(s: Block, w: Fips.RoundKeys)
    ensures w[16 * 10..16 * 10 + 16] == w[160..]
    ensures Fips.InvRounds(Fips.AddRoundKey(s, w[160..]), w[..16 * (9 + 1)]) == Fips.InvCipher(s, w)
  {
    hide Fips.InvRounds, Fips.AddRoundKey;
  }

  lemma PreviousRound(s: Block, w: Fips.RoundKeys, round: nat)
    requires round < 10
    ensures Fips.InvRounds(s, w[..16 * (round + 1)]) == (
        var u := Fips.AddRoundKey(Fips.InvSubBytes(Fips.InvShiftRows(s)), w[16 * round..16 * round + 16]);
        if round == 0 then u else Fips.InvRounds(Fips.InvMixColumns(u), w[..16 * round]))
  {
    hide Fips.InvSubBytes, Fips.InvShiftRows, Fips.InvMixColumns, Xor;
    var v := w[..16 * (round + 1)];
    assert v[..|v| - 16] == w[..16 * round];
    assert v[|v| - 16..] == w[16 * round..16 * round + 16];
  }
}
