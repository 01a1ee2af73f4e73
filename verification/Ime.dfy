/** The converters between UTF-16 and UTF-8 (ime.c): what they write for any zero-terminated input, and exactly when one
  * undoes the other.
  */
module Ime {
  type Units = seq<bv16>
  type Utf8 = seq<bv8>

  // ----- one unit, one character -----

  predicate High(u: bv16) {
    u & 0xFC00 == 0xD800
  }

  predicate Low(u: bv16) {
    u & 0xFC00 == 0xDC00
  }

  function Byte(u: bv16): bv8 {
    (u & 0xFF) as bv8
  }

  /** What utf16_to_utf8 writes for a unit on its own. */
  function One(u: bv16): (b: Utf8)
    ensures 1 <= |b| <= 3
  {
    if u & 0xFF80 == 0 then [Byte(u)]
    else if u & 0xF800 == 0 then [Byte(((u >> 6) & 0xFF) | 0xC0), Byte((u & 0x3F) | 0x80)]
    else [Byte(((u >> 12) & 0xF) | 0xE0), Byte(((u >> 6) & 0x3F) | 0x80), Byte((u & 0x3F) | 0x80)]
  }

  /** And for a high surrogate with the low one behind it. */
  function Pair(u: bv16, n: bv16): (b: Utf8)
    ensures |b| == 4
  {
    [Byte((((u + 64) >> 8) & 0x3) | 0xF0), Byte((((u >> 2) + 16) & 0x3F) | 0x80),
     Byte(((u >> 4) & 0x30) | 0x80 | ((n << 2) & 0xF)), Byte((n & 0x3F) | 0x80)]
  }

  function Wide(b: bv8): bv16 {
    b as bv16
  }

  /** How far utf8_to_utf16 moves on a lead byte, and what it makes of the bytes it takes. */
  function Size(b: bv8): (n: nat)
    ensures 1 <= n <= 3
  {
    if b & 0xE0 == 0xE0 then 3 else if b & 0xC0 == 0xC0 then 2 else 1
  }

  function Unit2(b0: bv8, b1: bv8): bv16 {
    ((Wide(b0) & 0x1F) << 6) | (Wide(b1) & 0x3F)
  }

  function Unit3(b0: bv8, b1: bv8, b2: bv8): bv16 {
    ((Wide(b0) & 0x0F) << 12) | ((Wide(b1) & 0x3F) << 6) | (Wide(b2) & 0x3F)
  }

  function Unit(s: Utf8): bv16
    requires s != [] && Size(s[0]) <= |s|
  {
    if Size(s[0]) == 3 then Unit3(s[0], s[1], s[2]) else if Size(s[0]) == 2 then Unit2(s[0], s[1]) else Wide(s[0])
  }

  lemma OneDecodes(u: bv16)
    ensures Size(One(u)[0]) == |One(u)| && Unit(One(u)) == u
  {
    if u & 0xFF80 == 0 {
    } else if u & 0xF800 == 0 {
    } else {
    }
  }

  lemma OneHasNoZero(u: bv16)
    requires u != 0
    ensures 0 !in One(u)
  {
  }

  /** The four bytes of a pair read back as a unit below 0x4000 and one that is no surrogate either. */
  lemma PairDecodes(u: bv16, n: bv16)
    ensures var p := Pair(u, n);
      && Size(p[0]) == 3 && Unit3(p[0], p[1], p[2]) < 0x4000 && Size(p[3]) == 1 && 0 !in p
  {
  }

  // ----- whole strings -----

  predicate PairAt(u: Units, i: nat) {
    i + 1 < |u| && High(u[i]) && Low(u[i + 1])
  }

  ghost predicate NoPairs(u: Units) {
    forall i: nat :: !PairAt(u, i)
  }

  /** What utf16_to_utf8 writes before the terminator. */
  function Encode(u: Units): (s: Utf8)
    ensures |s| <= 3 * |u|
  {
    if u == [] then [] else
      if PairAt(u, 0) then Pair(u[0], u[1]) + Encode(u[2..]) else One(u[0]) + Encode(u[1..])
  }

  /** utf8_to_utf16 never takes the terminator for a continuation byte. */
  predicate Complete(s: Utf8) {
    s == [] || (s[0] != 0 && Size(s[0]) <= |s| && Complete(s[Size(s[0])..]))
  }

  function Decode(s: Utf8): (u: Units)
    requires Complete(s)
    ensures |u| <= |s|
  {
    if s == [] then [] else [Unit(s)] + Decode(s[Size(s[0])..])
  }

  lemma DecodeMore(c: Utf8, r: Utf8)
    requires c != [] && c[0] != 0 && Size(c[0]) == |c| && Complete(r)
    ensures Complete(c + r) && Decode(c + r) == [Unit(c)] + Decode(r)
  {
    hide Size, Unit2, Unit3, Wide;
    assert (c + r)[0] == c[0] && (c + r)[|c|..] == r;
  }

  lemma DecodePair(u: bv16, n: bv16, r: Utf8)
    requires Complete(r)
    ensures var p := Pair(u, n);
      && Complete(p + r) && 0 !in p
      && |Decode(p + r)| == 2 + |Decode(r)| && Decode(p + r)[0] < 0x4000
  {
    hide Pair, Size, Unit2, Unit3, Wide, Decode, Complete;
    PairDecodes(u, n);
    var p := Pair(u, n);
    DecodeMore([p[3]], r);
    DecodeMore(p[..3], [p[3]] + r);
    assert p + r == p[..3] + ([p[3]] + r);
  }

  lemma NoPairsTail(u: Units)
    requires u != []
    ensures NoPairs(u) <==> !PairAt(u, 0) && NoPairs(u[1..])
  {
    hide High, Low;
    forall i: nat ensures PairAt(u[1..], i) <==> PairAt(u, i + 1) {
    }
    if !PairAt(u, 0) && NoPairs(u[1..]) {
      forall i: nat ensures !PairAt(u, i) {
        if i > 0 {
          assert PairAt(u[1..], i - 1) <==> PairAt(u, i - 1 + 1);
        }
      }
    }
  }

  lemma AsIs<T>(x: T, a: seq<T>, u: seq<T>)
    requires u != [] && u[0] == x
    ensures [x] + a == u <==> a == u[1..]
  {
    assert u == [u[0]] + u[1..];
    assert ([x] + a)[1..] == a;
  }

  /** A unit on its own is read back, so the rest decides. */
  lemma RoundTripOne(u: Units)
    requires u != [] && u[0] != 0 && !PairAt(u, 0)
    requires Complete(Encode(u[1..])) && 0 !in Encode(u[1..])
    ensures Complete(Encode(u)) && 0 !in Encode(u)
    ensures |Decode(Encode(u))| == 1 + |Decode(Encode(u[1..]))|
    ensures Decode(Encode(u)) == u <==> Decode(Encode(u[1..])) == u[1..]
  {
    hide One, Size, Unit, PairAt, Decode, Complete;
    OneDecodes(u[0]);
    OneHasNoZero(u[0]);
    DecodeMore(One(u[0]), Encode(u[1..]));
    AsIs(u[0], Decode(Encode(u[1..])), u);
  }

  /** A pair is not. */
  lemma RoundTripPair(u: Units)
    requires PairAt(u, 0)
    requires Complete(Encode(u[2..])) && 0 !in Encode(u[2..])
    ensures Complete(Encode(u)) && 0 !in Encode(u)
    ensures |Decode(Encode(u))| == 2 + |Decode(Encode(u[2..]))|
    ensures Decode(Encode(u)) != u
  {
    hide Pair, Decode, Complete, High, Low;
    DecodePair(u[0], u[1], Encode(u[2..]));
    HighIsLarge(u[0]);
  }

  /** Converting to UTF-8 and back is the identity on exactly the texts without a surrogate pair; it never changes the
    * number of units.
    */
  lemma {:induction false} DecodeEncode(u: Units)
    requires 0 !in u
    ensures Complete(Encode(u)) && 0 !in Encode(u)
    ensures |Decode(Encode(u))| == |u|
    ensures Decode(Encode(u)) == u <==> NoPairs(u)
    decreases |u|
  {
    hide Encode, Decode, Complete, NoPairs, High, Low;
    if u == [] {
      NoPairsOfNone();
      NoneLeft();
    } else {
      NoPairsTail(u);
      if PairAt(u, 0) {
        DecodeEncode(u[2..]);
        RoundTripPair(u);
      } else {
        DecodeEncode(u[1..]);
        RoundTripOne(u);
      }
    }
  }

  lemma NoPairsOfNone()
    ensures NoPairs([])
  {
  }

  lemma HighIsLarge(u: bv16)
    requires High(u)
    ensures u >= 0x4000
  {
  }

  // ----- UTF-8 that survives -----

  predicate Tail(b: bv8) {
    0x80 <= b <= 0xBF
  }

  /** A character of one to three bytes in the syntax of RFC 3629, section 4; NUL is left out. */
  predicate Character(c: Utf8) {
    || (|c| == 1 && 0x01 <= c[0] <= 0x7F)
    || (|c| == 2 && 0xC2 <= c[0] <= 0xDF && Tail(c[1]))
    || (|c| == 3 && c[0] == 0xE0 && 0xA0 <= c[1] <= 0xBF && Tail(c[2]))
    || (|c| == 3 && 0xE1 <= c[0] <= 0xEC && Tail(c[1]) && Tail(c[2]))
    || (|c| == 3 && c[0] == 0xED && 0x80 <= c[1] <= 0x9F && Tail(c[2]))
    || (|c| == 3 && 0xEE <= c[0] <= 0xEF && Tail(c[1]) && Tail(c[2]))
  }

  predicate WellFormed(s: Utf8) {
    s == [] || exists n :: 1 <= n <= 3 && n <= |s| && Character(s[..n]) && WellFormed(s[n..])
  }

  /** The same for a surrogate that stands as a character of its own. */
  predicate Surrogate(c: Utf8) {
    |c| == 3 && c[0] == 0xED && 0xA0 <= c[1] <= 0xBF && Tail(c[2])
  }

  /** No longer than it need be, character by character. */
  predicate Shortest(s: Utf8)
    requires Complete(s)
  {
    s == [] || (var n := Size(s[0]); (Character(s[..n]) || Surrogate(s[..n])) && Shortest(s[n..]))
  }

  lemma TwoBytes(a: bv8, b: bv8)
    requires 0xC2 <= a <= 0xDF && Tail(b)
    ensures Size(a) == 2 && Unit2(a, b) != 0 && One(Unit2(a, b)) == [a, b]
    ensures !High(Unit2(a, b)) && !Low(Unit2(a, b))
  {
  }

  lemma ThreeBytes(a: bv8, b: bv8, c: bv8)
    requires 0xE0 <= a <= 0xEF && Tail(b) && Tail(c) && (a == 0xE0 ==> 0xA0 <= b)
    ensures Size(a) == 3 && Unit3(a, b, c) != 0 && One(Unit3(a, b, c)) == [a, b, c]
    ensures a == 0xED && 0xA0 <= b <==> High(Unit3(a, b, c)) || Low(Unit3(a, b, c))
  {
  }

  lemma CharacterAsUnit(c: Utf8)
    requires Character(c) || Surrogate(c)
    ensures c[0] != 0 && Size(c[0]) == |c| && Unit(c) != 0 && One(Unit(c)) == c
    ensures Surrogate(c) <==> High(Unit(c)) || Low(Unit(c))
  {
    hide Unit2, Unit3;
    if |c| == 2 {
      TwoBytes(c[0], c[1]);
    } else if |c| == 3 {
      ThreeBytes(c[0], c[1], c[2]);
    }
  }

  lemma UnitAsCharacter(u: bv16)
    requires u != 0
    ensures Character(One(u)) <==> !High(u) && !Low(u)
    ensures Surrogate(One(u)) <==> High(u) || Low(u)
  {
  }

  /** The part of a text before the first NUL. */
  function Cut(u: Units): (v: Units)
    ensures 0 !in v && |v| <= |u| && u[..|v|] == v
    ensures |v| < |u| ==> u[|v|] == 0
  {
    if u == [] || u[0] == 0 then [] else [u[0]] + Cut(u[1..])
  }

  lemma {:induction false} EncodeShortest(s: Utf8)
    requires Complete(s) && Shortest(s) && NoPairs(Decode(s))
    ensures 0 !in Decode(s) && Encode(Decode(s)) == s
    decreases |s|
  {
    hide One, Pair, Size, Unit, Character, Surrogate, High, Low, NoPairs;
    if s != [] {
      var n := Size(s[0]);
      CharacterAsUnit(s[..n]);
      UnitOfPrefix(s);
      NoPairsTail(Decode(s));
      EncodeShortest(s[n..]);
      assert Decode(s)[1..] == Decode(s[n..]);
      assert s == s[..n] + s[n..];
    }
  }

  lemma UnitOfPrefix(s: Utf8)
    requires s != [] && Size(s[0]) <= |s|
    ensures s[..Size(s[0])][0] == s[0] && Unit(s[..Size(s[0])]) == Unit(s)
  {
    hide Unit2, Unit3, Wide;
  }

  lemma {:induction false} ShortestEncoded(u: Units)
    requires 0 !in u && NoPairs(u)
    ensures Complete(Encode(u)) && Shortest(Encode(u))
    decreases |u|
  {
    hide One, Pair, Size, Unit, Character, Surrogate, High, Low, NoPairs;
    if u != [] {
      NoPairsTail(u);
      ShortestEncoded(u[1..]);
      OneDecodes(u[0]);
      OneHasNoZero(u[0]);
      UnitAsCharacter(u[0]);
      var c, r := One(u[0]), Encode(u[1..]);
      DecodeMore(c, r);
      assert (c + r)[0] == c[0] && (c + r)[..|c|] == c && (c + r)[|c|..] == r;
    }
  }

  /** Converting to UTF-16 and back is the identity on exactly the strings of shortest forms in which no high surrogate
    * is directly followed by a low one.
    */
  lemma EncodeDecode(s: Utf8)
    requires Complete(s)
    ensures Encode(Cut(Decode(s))) == s <==> Shortest(s) && NoPairs(Decode(s))
  {
    hide Encode, Decode, Shortest, NoPairs, PairAt;
    var u := Decode(s);
    var v := Cut(u);
    if Encode(v) == s {
      DecodeEncode(v);
      assert v == u;
      ShortestEncoded(v);
    }
    if Shortest(s) && NoPairs(u) {
      EncodeShortest(s);
      assert v == u;
    }
  }

  lemma {:induction false} WellFormedIsShortest(s: Utf8)
    requires WellFormed(s)
    ensures Complete(s) && Shortest(s)
    ensures forall i :: 0 <= i < |Decode(s)| ==> !High(Decode(s)[i]) && !Low(Decode(s)[i])
    decreases |s|
  {
    hide Size, Unit, Character, Surrogate, High, Low, Complete, Shortest, Decode;
    if s == [] {
      NothingIsShortest();
    } else {
      var n :| 1 <= n <= 3 && n <= |s| && Character(s[..n]) && WellFormed(s[n..]);
      var c, r := s[..n], s[n..];
      WellFormedIsShortest(r);
      CharacterAsUnit(c);
      NotSurrogate(c);
      assert s == c + r;
      DecodeMore(c, r);
      ShortestMore(c, r);
    }
  }

  lemma NothingIsShortest()
    ensures Complete([]) && Decode([]) == [] && Shortest([])
  {
  }

  lemma ShortestMore(c: Utf8, r: Utf8)
    requires c != [] && Character(c) && Size(c[0]) == |c| && Complete(r) && Shortest(r) && Complete(c + r)
    ensures Shortest(c + r)
  {
    hide Size, Character, Surrogate;
    assert (c + r)[0] == c[0] && (c + r)[..|c|] == c && (c + r)[|c|..] == r;
  }

  lemma NotSurrogate(c: Utf8)
    requires Character(c)
    ensures !Surrogate(c)
  {
  }

  /** In particular it is on the well-formed strings of RFC 3629 whose characters take at most three bytes. */
  lemma WellFormedRoundTrip(s: Utf8)
    requires WellFormed(s)
    ensures Complete(s) && 0 !in Decode(s) && Encode(Decode(s)) == s
  {
    hide Encode, Decode, Shortest, High, Low;
    WellFormedIsShortest(s);
    EncodeShortest(s);
  }

  /** And what utf16_to_utf8 writes for a text without surrogates is well formed. */
  lemma {:induction false} EncodeIsWellFormed(u: Units)
    requires 0 !in u && forall i :: 0 <= i < |u| ==> !High(u[i]) && !Low(u[i])
    ensures WellFormed(Encode(u))
    decreases |u|
  {
    hide One, Pair, Character, High, Low;
    if u != [] {
      EncodeIsWellFormed(u[1..]);
      UnitAsCharacter(u[0]);
      var c, r := One(u[0]), Encode(u[1..]);
      assert (c + r)[..|c|] == c && (c + r)[|c|..] == r;
    }
  }

  // ----- the numbers behind the bytes -----

  /** The character number of section 3 of RFC 3629: the bits of the bytes behind their prefixes. */
  function Number(c: Utf8): bv16
    requires 1 <= |c| <= 3
  {
    if |c| == 1 then Wide(c[0])
    else if |c| == 2 then 0x40 * (Wide(c[0]) - 0xC0) + (Wide(c[1]) - 0x80)
    else 0x1000 * (Wide(c[0]) - 0xE0) + 0x40 * (Wide(c[1]) - 0x80) + (Wide(c[2]) - 0x80)
  }

  /** A character of up to three bytes is read as its number. */
  lemma ReadsTheNumber(c: Utf8)
    requires Character(c) || Surrogate(c)
    ensures Size(c[0]) == |c| && Unit(c) == Number(c)
  {
  }

  /** And a unit on its own is written as the character with its number. */
  lemma WritesTheNumber(u: bv16)
    requires u != 0
    ensures (Character(One(u)) || Surrogate(One(u))) && Number(One(u)) == u
  {
    hide Size, Unit, Character, Surrogate, Number, One;
    UnitAsCharacter(u);
    OneDecodes(u);
    ReadsTheNumber(One(u));
  }

  /** The character number that a surrogate pair stands for in UTF-16. */
  function Scalar(u: bv16, n: bv16): bv32 {
    0x1_0000 + 0x400 * (u as bv32 - 0xD800) + (n as bv32 - 0xDC00)
  }

  function Byte32(x: bv32): bv8 {
    (x & 0xFF) as bv8
  }

  /** The four bytes of section 3 of RFC 3629. */
  function FourBytes(x: bv32): (b: Utf8)
    ensures |b| == 4
  {
    [Byte32(0xF0 + x / 0x4_0000), Byte32(0x80 + x / 0x1000 % 0x40), Byte32(0x80 + x / 0x40 % 0x40),
     Byte32(0x80 + x % 0x40)]
  }

  /** Byte by byte, what utf16_to_utf8 writes for a pair is the UTF-8 of the pair except that the third byte takes its
    * bits from the wrong places of the two units, and that the first is short of a bit from 0xDBC0 on.
    */
  lemma PairBytes(u: bv16, n: bv16)
    requires High(u) && Low(n)
    ensures var b, f := Pair(u, n), FourBytes(Scalar(u, n));
      && (b[0] == f[0] <==> u < 0xDBC0) && b[1] == f[1] && b[3] == f[3]
      && b[2] == Byte(0x80 + 0x10 * (u / 0x100 % 4) + 4 * (n % 4))
      && f[2] == Byte(0x80 + 0x10 * (u % 4) + n / 0x40 % 0x10)
  {
  }

  /** So it is the UTF-8 of the pair exactly when the bits happen to be the same. */
  lemma PairIsUtf8(u: bv16, n: bv16)
    requires High(u) && Low(n)
    ensures Pair(u, n) == FourBytes(Scalar(u, n))
      <==> u < 0xDBC0 && u / 0x100 % 4 == u % 4 && 4 * (n % 4) == n / 0x40 % 0x10
  {
  }

  // ----- the converters -----

  /** The zero-terminated text in memory. */
  function Text(m: Units): (t: Units)
    requires 0 in m
    ensures |t| < |m| && m[|t|] == 0 && m[..|t|] == t && 0 !in t
  {
    if m[0] == 0 then [] else [m[0]] + Text(m[1..])
  }

  /** Starting from here, the decoder comes to a NUL where it expects a lead byte; a continuation byte it takes
    * unseen, so a lone lead byte at the end of a string makes it read on behind the terminator.
    */
  predicate Readable(m: Utf8) {
    m != [] && (m[0] == 0 || (Size(m[0]) <= |m| && Readable(m[Size(m[0])..])))
  }

  function Taken(m: Utf8): (s: Utf8)
    requires Readable(m)
    ensures |s| < |m| && m[|s|] == 0 && m[..|s|] == s && Complete(s)
  {
    hide Size;
    if m[0] == 0 then [] else
      var n := Size(m[0]);
      assert (m[..n] + Taken(m[n..]))[n..] == Taken(m[n..]);
      m[..n] + Taken(m[n..])
  }

  /** A complete string in front of a NUL is read to its end and no further, whatever lies behind. */
  lemma {:induction false} ReadsToTheTerminator(s: Utf8, m: Utf8)
    requires Complete(s) && |s| < |m| && m[..|s|] == s && m[|s|] == 0
    ensures Readable(m) && Taken(m) == s
    decreases |s|
  {
    hide Size;
    if s != [] {
      var n := Size(s[0]);
      assert m[0] == s[0];
      var s', m' := s[n..], m[n..];
      assert m'[..|s'|] == s' by {
        assert s' == m[..|s|][n..];
      }
      ReadsToTheTerminator(s', m');
      assert m[..n] == s[..n];
    }
  }

  lemma NoneLeft()
    ensures Encode([]) == [] && Complete([]) && Decode([]) == []
  {
  }

  lemma EncodeStep(t: Units, i: nat, next: bv16)
    requires i < |t| && next == if i + 1 < |t| then t[i + 1] else 0
    ensures High(t[i]) && Low(next) ==> i + 2 <= |t| && Encode(t[i..]) == Pair(t[i], next) + Encode(t[i + 2..])
    ensures !(High(t[i]) && Low(next)) ==> Encode(t[i..]) == One(t[i]) + Encode(t[i + 1..])
  {
    hide Pair, One;
    var r := t[i..];
    assert r[1..] == t[i + 1..];
    if i + 1 < |t| {
      assert r[2..] == t[i + 2..];
    }
  }

  /** The branches of utf16_to_utf8, with the unit that follows; the last test but one takes both. */
  method EncodeUnit(u: bv16, next: bv16) returns (b: Utf8, both: bool)
    ensures both == (High(u) && Low(next))
    ensures b == if both then Pair(u, next) else One(u)
  {
    if u & 0xFF80 == 0 {
      return [Byte(u)], false;
    } else if u & 0xF800 == 0 {
      return [Byte(((u >> 6) & 0xFF) | 0xC0), Byte((u & 0x3F) | 0x80)], false;
    } else if u & 0xFC00 == 0xD800 && next & 0xFC00 == 0xDC00 {
      return Pair(u, next), true;
    } else {
      return [Byte(((u >> 12) & 0xF) | 0xE0), Byte(((u >> 6) & 0x3F) | 0x80), Byte((u & 0x3F) | 0x80)], false;
    }
  }

  /** A buffer that held `was`, with w written over its head. */
  ghost function Written<T>(was: seq<T>, w: seq<T>): (s: seq<T>)
    requires |w| <= |was|
    ensures |s| == |was|
  {
    w + was[|w|..]
  }

  lemma NothingWritten<T>(was: seq<T>)
    ensures Written(was, []) == was
  {
  }

  /** Storing through the moving output pointer: of the whole output s, w is there already and b comes now. */
  method Put<T>(dst: array<T>, d: nat, b: seq<T>,
                ghost was: seq<T>, ghost w: seq<T>, ghost rest: seq<T>, ghost s: seq<T>)
    returns (d': nat)
    requires w + (b + rest) == s && |s| <= |was| && d == |w| && dst[..] == Written(was, w)
    modifies dst
    ensures w + b + rest == s && d' == |w + b| && dst[..] == Written(was, w + b)
  {
    assert |s| == |w| + |b| + |rest|;
    for k := 0 to |b|
      invariant dst[..] == w + b[..k] + was[d + k..]
    {
      dst[d + k] := b[k];
    }
    d' := d + |b|;
  }

  /** utf16_to_utf8 needs three bytes for a unit, at most, and one for the terminator. */
  method Utf16ToUtf8(src: array<bv16>, dst: array<bv8>)
    requires 0 in src[..] && |Encode(Text(src[..]))| < dst.Length
    modifies dst
    ensures dst[..] == Written(old(dst[..]), Encode(Text(src[..])) + [0])
  {
    hide One, Pair, High, Low, Encode, Text, Written;
    ghost var t := Text(src[..]);
    ghost var s := Encode(t);
    ghost var w: Utf8 := [];
    var i, d := 0, 0;
    NothingWritten(dst[..]);
    assert t[0..] == t;
    while src[i] != 0
      invariant 0 <= i <= |t| && d == |w|
      invariant w + Encode(t[i..]) == s
      invariant |w| <= dst.Length && dst[..] == Written(old(dst[..]), w)
      decreases |t| - i
    {
      assert src[..][i] == t[i] && src[..][i + 1] == if i + 1 < |t| then t[i + 1] else 0;
      EncodeStep(t, i, src[i + 1]);
      var b, both := EncodeUnit(src[i], src[i + 1]);
      if both {
        i := i + 1;
      }
      i := i + 1;
      d := Put(dst, d, b, old(dst[..]), w, Encode(t[i..]), s);
      w := w + b;
    }
    assert t[i..] == [];
    NoneLeft();
    assert w + [] == w;
    d := Put(dst, d, [0], old(dst[..]), w, [], w + [0]);
  }

  lemma DecodeStep(s: Utf8, i: nat, m: Utf8)
    requires i < |s| < |m| && m[..|s|] == s && Complete(s[i..])
    ensures m[i] != 0 && i + Size(m[i]) <= |s| && Complete(s[i + Size(m[i])..])
    ensures Decode(s[i..]) == [Unit(m[i..])] + Decode(s[i + Size(m[i])..])
  {
    hide Size, Unit2, Unit3, Wide;
    var r, q := s[i..], m[i..];
    var n := Size(r[0]);
    assert r[0] == m[i] && r[n..] == s[i + n..] && q[0] == m[i];
    assert n >= 2 ==> r[1] == m[i + 1] == q[1];
    assert n == 3 ==> r[2] == m[i + 2] == q[2];
  }

  /** The branches of utf8_to_utf16: the unit, and how many bytes it took. */
  method DecodeUnit(src: array<bv8>, i: nat) returns (x: bv16, n: nat)
    requires i < src.Length && i + Size(src[i]) <= src.Length
    ensures n == Size(src[i]) && x == Unit(src[i..])
  {
    hide Wide;
    if src[i] & 0xE0 == 0xE0 {
      return ((Wide(src[i]) & 0x0F) << 12) | ((Wide(src[i + 1]) & 0x3F) << 6) | (Wide(src[i + 2]) & 0x3F), 3;
    } else if src[i] & 0xC0 == 0xC0 {
      return ((Wide(src[i]) & 0x1F) << 6) | (Wide(src[i + 1]) & 0x3F), 2;
    } else {
      return Wide(src[i]), 1;
    }
  }

  /** utf8_to_utf16. */
  method Utf8ToUtf16(src: array<bv8>, dst: array<bv16>)
    requires Readable(src[..]) && |Decode(Taken(src[..]))| < dst.Length
    modifies dst
    ensures dst[..] == Written(old(dst[..]), Decode(Taken(src[..])) + [0])
  {
    hide Size, Unit, Decode, Taken, Complete, Readable, Written;
    ghost var s, m := Taken(src[..]), src[..];
    ghost var w: Units := [];
    var i, d := 0, 0;
    NothingWritten(dst[..]);
    assert s[0..] == s;
    while src[i] != 0
      invariant 0 <= i <= |s| && d == |w| && Complete(s[i..])
      invariant w + Decode(s[i..]) == Decode(s)
      invariant |w| <= dst.Length && dst[..] == Written(old(dst[..]), w)
      decreases |s| - i
    {
      assert m[|s|] == 0 && m[i] == src[i];
      DecodeStep(s, i, m);
      var x, n := DecodeUnit(src, i);
      assert src[i..] == m[i..];
      i := i + n;
      d := Put(dst, d, [x], old(dst[..]), w, Decode(s[i..]), Decode(s));
      w := w + [x];
    }
    if i < |s| {
      DecodeStep(s, i, m);
    }
    assert s[i..] == [];
    NoneLeft();
    assert w + [] == w;
    d := Put(dst, d, [0], old(dst[..]), w, [], w + [0]);
  }
}
