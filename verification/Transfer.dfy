/** The copy engine of device.c on values: what reads and writes do to files and devices, the loop that moves data from
  * one to the other, and what each way of driving the loop achieves.
  */
module Transfer {
  import opened Bytes

  const CHUNK: nat := 0x20000

  const SIZE_IS_ZERO := -9584
  const SIZE_NOT_MATCH := -9585
  const SIZE_NO_SPACE := -9686

  /** Something opened, or not if the descriptor is negative. A file grows as it is written, a device does not. The plan
    * says what the system makes of the transfers to come: an error code, or the most bytes it is willing to move; after
    * the plan it moves all it can.
    */
  datatype Chan = Chan(content: bytes, pos: nat, plan: seq<int>, fd: int, grows: bool) {
    predicate Valid() {
      pos <= |content|
    }

    /** Opened, and every transfer goes as far as the content allows. */
    ghost predicate Smooth() {
      fd >= 0 && forall i :: 0 <= i < |plan| ==> plan[i] >= CHUNK
    }

    function Rest(): Chan {
      this.(plan := if plan == [] then [] else plan[1..])
    }

    /** An error code, or how many of n bytes may be moved. */
    function Allowed(n: nat): (a: int)
      ensures a <= n
    {
      if fd < 0 then fd
      else if plan == [] || plan[0] >= n then n
      else plan[0]
    }
  }

  function Min(a: nat, b: nat): nat {
    if a <= b then a else b
  }

  // ----- one transfer -----

  function ReadFrom(c: Chan, n: nat): (r: (int, bytes, Chan))
    requires c.Valid()
    ensures r.2.Valid() && r.0 <= n
    ensures |r.1| == if r.0 < 0 then 0 else r.0
  {
    var a := c.Allowed(n);
    if a < 0 then (a, [], c.Rest()) else
      var k := Min(a, |c.content| - c.pos);
      (k, c.content[c.pos..c.pos + k], c.Rest().(pos := c.pos + k))
  }

  function WriteTo(c: Chan, data: bytes): (r: (int, Chan))
    requires c.Valid()
    ensures r.1.Valid() && r.0 <= |data|
  {
    var a := c.Allowed(|data|);
    if a < 0 then (a, c.Rest()) else
      var k := if c.grows then a else Min(a, |c.content| - c.pos);
      var end := Min(c.pos + k, |c.content|);
      (k, c.Rest().(content := c.content[..c.pos] + data[..k] + c.content[end..], pos := c.pos + k))
  }

  /** Moving to a place in what is there: the place, or an error code. */
  function SeekTo(c: Chan, offset: nat): (r: (int, Chan))
    requires c.Valid() && offset <= |c.content|
    ensures r.1.Valid() && r.1.content == c.content && (r.0 == offset || r.0 < 0)
  {
    var a := c.Allowed(0);
    if a < 0 then (a, c.Rest()) else (offset, c.Rest().(pos := offset))
  }

  /** The read functions that are handed to the loop. */
  datatype Reader = FromDevice | FromImage | Nothing

  function ReadBy(reader: Reader, c: Chan): (r: (int, bytes, Chan))
    requires c.Valid()
    ensures r.2.Valid() && r.0 <= CHUNK
    ensures |r.1| == if r.0 < 0 then 0 else r.0
  {
    match reader
    case FromDevice => ReadFrom(c, CHUNK)
    case FromImage =>
      var (rd, data, c') := ReadFrom(c, CHUNK);
      if rd < 0 then (rd, data, c') else (CHUNK, data + Zeros(CHUNK - |data|), c')
    case Nothing => (CHUNK, Zeros(CHUNK), c)
  }

  // ----- the loop -----

  datatype Pumped = Pumped(res: int, from: Chan, to: Chan, total: nat, hashed: bytes)

  /** device_access_loop: pass after pass until the bytes written make up toRead, or one transfer fails or moves
    * nothing.
    */
  function Pump(reader: Reader, from: Chan, to: Chan, toRead: nat, total: nat, hashed: bytes): (r: Pumped)
    requires from.Valid() && to.Valid()
    ensures r.from.Valid() && r.to.Valid()
    decreases if total < toRead then toRead - total else 0
  {
    var (rd, data, from') := ReadBy(reader, from);
    if rd == 0 then Pumped(SIZE_IS_ZERO, from', to, total, hashed)
    else if rd < 0 then Pumped(rd, from', to, total, hashed)
    else
      var (wr, to') := WriteTo(to, data);
      if wr == 0 then Pumped(SIZE_IS_ZERO, from', to', total, hashed + data)
      else if wr < 0 then Pumped(wr, from', to', total, hashed + data)
      else if total + wr < toRead then Pump(reader, from', to', toRead, total + wr, hashed + data)
      else Pumped(0, from', to', total + wr, hashed + data)
  }

  lemma Reads(c: Chan, n: nat)
    requires c.Valid()
    ensures var (rd, data, c') := ReadFrom(c, n);
      && c'.content == c.content && c'.pos == c.pos + |data| && data == c.content[c.pos..c'.pos]
  {
  }

  /** What can come out of transfers on c: the error code of one that failed. */
  predicate ErrorOf(c: Chan, code: int) {
    code < 0 && (code == c.fd || code in c.plan)
  }

  lemma ReadCodes(reader: Reader, c: Chan)
    requires c.Valid()
    ensures var (rd, _, c') := ReadBy(reader, c);
      (rd < 0 ==> ErrorOf(c, rd)) && forall code :: ErrorOf(c', code) ==> ErrorOf(c, code)
  {
  }

  lemma WriteCodes(c: Chan, data: bytes)
    requires c.Valid()
    ensures var (wr, c') := WriteTo(c, data);
      (wr < 0 ==> ErrorOf(c, wr)) && forall code :: ErrorOf(c', code) ==> ErrorOf(c, code)
  {
  }

  /** The loop ends with 0, with the error code of a transfer, or with -9584 when a transfer moves nothing. */
  lemma {:induction false} PumpCodes(reader: Reader, from: Chan, to: Chan, toRead: nat, total: nat, hashed: bytes)
    requires from.Valid() && to.Valid()
    ensures var res := Pump(reader, from, to, toRead, total, hashed).res;
      res == 0 || res == -9584 || ErrorOf(from, res) || ErrorOf(to, res)
    decreases if total < toRead then toRead - total else 0
  {
    hide ReadBy, WriteTo, ErrorOf;
    ReadCodes(reader, from);
    var (rd, data, from') := ReadBy(reader, from);
    if rd > 0 {
      WriteCodes(to, data);
      var (wr, to') := WriteTo(to, data);
      if wr > 0 && total + wr < toRead {
        PumpCodes(reader, from', to', toRead, total + wr, hashed + data);
      }
    }
  }

  lemma Continues(head: bytes, data: bytes, s: bytes, i: nat, j: nat)
    requires i <= j <= |s| && data == s[i..j]
    ensures head + data[..j - i] + s[j..] == head + s[i..] && head + data + s[j..] == head + s[i..]
  {
    assert s[i..] == s[i..j] + s[j..];
  }

  /** A write to a file at its end. */
  lemma Appends(c: Chan, data: bytes)
    requires c.Valid() && c.grows && c.pos == |c.content|
    ensures var (wr, c') := WriteTo(c, data);
      && c'.grows && c'.pos == |c'.content| && c'.fd == c.fd
      && c'.content == c.content + data[..if wr < 0 then 0 else wr]
  {
  }

  /** A write to a device leaves its size as it is, and the bytes before and behind those it moves. */
  lemma Overwrites(c: Chan, data: bytes)
    requires c.Valid() && !c.grows
    ensures var (wr, c') := WriteTo(c, data);
      var k := if wr < 0 then 0 else wr;
      && !c'.grows && c'.fd == c.fd && c'.pos == c.pos + k && |c'.content| == |c.content|
      && c'.content[..c'.pos] == c.content[..c.pos] + data[..k]
      && c'.content[c'.pos..] == c.content[c'.pos..]
  {
  }

  lemma StaysSmooth(c: Chan)
    requires c.Smooth()
    ensures c.Rest().Smooth()
    ensures forall n: nat :: n <= CHUNK ==> c.Allowed(n) == n
  {
  }

  /** Dumping: a run that reports success has copied everything, and hashed what it copied, however short or broken the
    * single transfers were. For bytes lost in a short write are missing from the total, and the device ends before the
    * total can be made up; the next read then moves nothing.
    */
  lemma {:induction false} DumpIsExact(from: Chan, to: Chan, total: nat, hashed: bytes)
    requires from.Valid() && to.Valid() && to.grows && to.pos == |to.content| && total <= from.pos
    ensures var r := Pump(FromDevice, from, to, |from.content|, total, hashed);
      && r.res <= 0
      && r.to.grows && r.to.pos == |r.to.content| && r.to.fd == to.fd
      && (r.res == 0 ==> total == from.pos && r.to.content == to.content + from.content[from.pos..]
                         && r.hashed == hashed + from.content[from.pos..])
    decreases |from.content| - total
  {
    hide WriteTo, ReadFrom;
    var n := |from.content|;
    Reads(from, CHUNK);
    var (rd, data, from') := ReadBy(FromDevice, from);
    if rd > 0 {
      var (wr, to') := WriteTo(to, data);
      Appends(to, data);
      if wr > 0 {
        assert total + wr <= from'.pos;
        if total + wr < n {
          DumpIsExact(from', to', total + wr, hashed + data);
        }
        if wr == rd {
          Continues(to.content, data, from.content, from.pos, from'.pos);
          Continues(hashed, data, from.content, from.pos, from'.pos);
        }
      }
    }
  }

  /** And a device that is not empty is dumped with success if every transfer goes as far as it can. */
  lemma {:induction false} DumpSucceeds(from: Chan, to: Chan, hashed: bytes)
    requires from.Valid() && to.Valid() && to.grows && to.pos == |to.content| && from.pos < |from.content|
    requires from.Smooth() && to.Smooth()
    ensures Pump(FromDevice, from, to, |from.content|, from.pos, hashed).res == 0
    decreases |from.content| - from.pos
  {
    StaysSmooth(from);
    StaysSmooth(to);
    var (rd, data, from') := ReadBy(FromDevice, from);
    var (wr, to') := WriteTo(to, data);
    if from'.pos < |from.content| {
      DumpSucceeds(from', to', hashed + data);
    }
  }

  /** Wiping: a run that reports success has left only zeros, however short the single writes were. */
  lemma {:induction false} WipeIsComplete(from: Chan, to: Chan, hashed: bytes)
    requires from.Valid() && to.Valid() && !to.grows && to.content[..to.pos] == Zeros(to.pos)
    ensures var r := Pump(Nothing, from, to, |to.content|, to.pos, hashed);
      && r.res <= 0 && |r.to.content| == |to.content|
      && (r.res == 0 ==> r.to.content == Zeros(|to.content|))
      && (to.Smooth() && to.pos < |to.content| ==> r.res == 0)
    decreases |to.content| - to.pos
  {
    hide WriteTo;
    var (wr, to') := WriteTo(to, Zeros(CHUNK));
    Overwrites(to, Zeros(CHUNK));
    if to.Smooth() {
      StaysSmooth(to);
      MovesAll(to, Zeros(CHUNK));
    }
    if wr > 0 {
      assert to'.content[..to'.pos] == Zeros(to'.pos);
      if to'.pos < |to.content| {
        WipeIsComplete(from, to', hashed + Zeros(CHUNK));
      } else {
        assert to'.content == to'.content[..to'.pos];
      }
    }
  }

  lemma MovesAll(c: Chan, data: bytes)
    requires c.Valid() && c.Smooth() && |data| <= CHUNK
    ensures var (wr, c') := WriteTo(c, data);
      c'.Smooth() && wr == if c.grows then |data| else Min(|data|, |c.content| - c.pos)
  {
  }

  /** What a device of n bytes should hold after restoring an image. */
  function Restored(image: bytes, n: nat): (d: bytes)
    requires |image| <= n
    ensures |d| == n
  {
    image + Zeros(n - |image|)
  }

  // ----- which restores are exact -----

  /** Every pass moves something, and leaves as much of the image read as of the device written. Only positions, lengths
    * and plans decide this, not what is in the image or on the device.
    */
  ghost predicate InStep(from: Chan, to: Chan)
    requires from.Valid() && to.Valid() && !to.grows
    decreases |to.content| - to.pos
  {
    hide WriteTo;
    var (rd, data, from') := ReadBy(FromImage, from);
    rd > 0 &&
    var (wr, to') := WriteTo(to, data);
    Overwrites(to, data);
    wr > 0 && from'.pos == Min(to'.pos, |from.content|) && (to'.pos < |to.content| ==> InStep(from', to'))
  }

  lemma ReadsImage(c: Chan)
    requires c.Valid()
    ensures var (rd, data, c') := ReadBy(FromImage, c);
      && c'.content == c.content && c.pos <= c'.pos <= c.pos + CHUNK
      && (rd >= 0 ==> data == c.content[c.pos..c'.pos] + Zeros(CHUNK - (c'.pos - c.pos)))
      && (rd == CHUNK || rd < 0)
  {
  }

  /** A chunk that was read and written in step is the part of the goal that starts there. */
  lemma PaddedSlice(s: bytes, n: nat, at: nat, wr: nat, pos: nat, pos': nat)
    requires |s| <= n && at + wr <= n && wr <= CHUNK && pos <= pos' <= pos + CHUNK
    requires pos == Min(at, |s|) && pos' == Min(at + wr, |s|)
    ensures (s[pos..pos'] + Zeros(CHUNK - (pos' - pos)))[..wr] == Restored(s, n)[at..at + wr]
  {
    var data := s[pos..pos'] + Zeros(CHUNK - (pos' - pos));
    forall j | 0 <= j < wr ensures data[j] == Restored(s, n)[at + j] {
      if j < pos' - pos {
        assert data[j] == s[pos + j] && pos == at;
      } else {
        assert data[j] == 0 && at + j >= |s|;
      }
    }
  }

  /** A run in step succeeds and leaves the image followed by zeros. */
  lemma {:induction false} InStepRestores(from: Chan, to: Chan, hashed: bytes)
    requires from.Valid() && to.Valid() && !to.grows && InStep(from, to)
    requires |from.content| <= |to.content| && from.pos == Min(to.pos, |from.content|)
    requires to.content[..to.pos] == Restored(from.content, |to.content|)[..to.pos]
    ensures var r := Pump(FromImage, from, to, |to.content|, to.pos, hashed);
      r.res == 0 && r.to.content == Restored(from.content, |to.content|)
    decreases |to.content| - to.pos
  {
    hide WriteTo, ReadBy;
    var goal := Restored(from.content, |to.content|);
    ReadsImage(from);
    var (rd, data, from') := ReadBy(FromImage, from);
    var (wr, to') := WriteTo(to, data);
    Overwrites(to, data);
    PaddedSlice(from.content, |to.content|, to.pos, wr, from.pos, from'.pos);
    assert to'.content[..to'.pos] == goal[..to'.pos];
    if to'.pos < |to.content| {
      InStepRestores(from', to', hashed + data);
    } else {
      assert to'.content == to'.content[..to'.pos] && goal == goal[..to'.pos];
    }
  }

  /** The same but for what is stored. */
  ghost predicate Alike(a: Chan, b: Chan) {
    b.(content := a.content) == a && |b.content| == |a.content|
  }

  lemma AlikeRead(a: Chan, b: Chan)
    requires a.Valid() && b.Valid() && Alike(a, b)
    ensures var (ra, da, a') := ReadBy(FromImage, a); var (rb, db, b') := ReadBy(FromImage, b);
      ra == rb && |da| == |db| && Alike(a', b')
  {
  }

  lemma AlikeWritten(a: Chan, b: Chan, p: bytes, q: bytes)
    requires a.Valid() && b.Valid() && !a.grows && Alike(a, b) && |p| == |q|
    ensures var (wa, a') := WriteTo(a, p); var (wb, b') := WriteTo(b, q); wa == wb && Alike(a', b')
  {
  }

  /** What is stored decides neither the result of a run nor whether it is in step. */
  lemma {:induction false} AlikeRuns(from: Chan, to: Chan, from2: Chan, to2: Chan, h: bytes, h2: bytes)
    requires from.Valid() && to.Valid() && from2.Valid() && to2.Valid() && !to.grows
    requires Alike(from, from2) && Alike(to, to2)
    ensures InStep(from, to) == InStep(from2, to2)
    ensures Pump(FromImage, from, to, |to.content|, to.pos, h).res
         == Pump(FromImage, from2, to2, |to.content|, to.pos, h2).res
    decreases |to.content| - to.pos
  {
    hide WriteTo, ReadBy;
    AlikeRead(from, from2);
    var (rd, data, from') := ReadBy(FromImage, from);
    var (rd2, data2, from2') := ReadBy(FromImage, from2);
    if rd > 0 {
      AlikeWritten(to, to2, data, data2);
      Overwrites(to, data);
      var (wr, to') := WriteTo(to, data);
      var (wr2, to2') := WriteTo(to2, data2);
      if wr > 0 && to'.pos < |to.content| {
        AlikeRuns(from', to', from2', to2', h + data, h2 + data2);
      }
    }
  }

  /** A run leaves what was written before. */
  lemma {:induction false} PumpKeepsHead(from: Chan, to: Chan, hashed: bytes, q: nat)
    requires from.Valid() && to.Valid() && !to.grows && q < to.pos
    ensures var r := Pump(FromImage, from, to, |to.content|, to.pos, hashed);
      |r.to.content| == |to.content| && r.to.content[q] == to.content[q]
    decreases |to.content| - to.pos
  {
    hide WriteTo, ReadBy;
    var (rd, data, from') := ReadBy(FromImage, from);
    if rd > 0 {
      var (wr, to') := WriteTo(to, data);
      Overwrites(to, data);
      assert to'.content[..to'.pos][q] == (to.content[..to.pos] + data[..if wr < 0 then 0 else wr])[q];
      if wr > 0 && to'.pos < |to.content| {
        PumpKeepsHead(from', to', hashed + data, q);
      }
    }
  }

  /** If the rest of the image is zero, a run that succeeds fills the rest of the device with zeros. */
  lemma {:induction false} ZerosToTheEnd(from: Chan, to: Chan, hashed: bytes, q: nat)
    requires from.Valid() && to.Valid() && !to.grows && to.pos <= q < |to.content|
    requires from.content[from.pos..] == Zeros(|from.content| - from.pos)
    requires Pump(FromImage, from, to, |to.content|, to.pos, hashed).res == 0
    ensures var r := Pump(FromImage, from, to, |to.content|, to.pos, hashed);
      |r.to.content| == |to.content| && r.to.content[q] == 0
    decreases |to.content| - to.pos
  {
    hide WriteTo, ReadBy;
    ReadsImage(from);
    var (rd, data, from') := ReadBy(FromImage, from);
    var (wr, to') := WriteTo(to, data);
    Overwrites(to, data);
    ZeroChunk(from.content, from.pos, from'.pos);
    assert from.content[from'.pos..] == Zeros(|from.content| - from'.pos);
    if q < to'.pos {
      assert to'.content[..to'.pos][q] == (to.content[..to.pos] + data[..wr])[q];
      if to'.pos < |to.content| {
        PumpKeepsHead(from', to', hashed + data, q);
      }
    } else {
      ZerosToTheEnd(from', to', hashed + data, q);
    }
  }

  lemma ZeroChunk(s: bytes, pos: nat, pos': nat)
    requires pos <= pos' <= |s| && pos' <= pos + CHUNK && s[pos..] == Zeros(|s| - pos)
    ensures s[pos..pos'] + Zeros(CHUNK - (pos' - pos)) == Zeros(CHUNK)
    ensures s[pos'..] == Zeros(|s| - pos')
  {
    assert s[pos..pos'] == s[pos..][..pos' - pos] && s[pos'..] == s[pos..][pos' - pos..];
  }

  /** An image of zeros with a single one. */
  function Marked(n: nat, q: nat): (s: bytes)
    requires q < n
    ensures |s| == n
  {
    Zeros(n)[q := 1]
  }

  /** The mark at q does not reach the device. */
  ghost predicate Loses(from: Chan, to: Chan, hashed: bytes, q: nat)
    requires from.Valid() && to.Valid() && !to.grows && q < |from.content| <= |to.content|
  {
    var r := Pump(FromImage, from.(content := Marked(|from.content|, q)), to, |to.content|, to.pos, hashed);
    |r.to.content| == |to.content| && r.to.content[q] == 0
  }

  ghost predicate AlwaysLoses(from: Chan, to: Chan, q: nat)
    requires from.Valid() && to.Valid() && !to.grows && q < |from.content| <= |to.content|
  {
    forall d: Chan, h: bytes | d.Valid() && Alike(to, d) :: Loses(from, d, h, q)
  }

  /** A pass that reads less of the image than it writes: the first byte of padding stands where the image goes on. */
  lemma PaddingOverImage(from: Chan, to: Chan, hashed: bytes)
    requires from.Valid() && to.Valid() && !to.grows && |from.content| <= |to.content|
    requires from.pos == Min(to.pos, |from.content|)
    requires var (rd, data, from') := ReadBy(FromImage, from); var (wr, to') := WriteTo(to, data);
      rd > 0 && wr > 0 && from'.pos < Min(to'.pos, |from.content|)
    ensures Loses(from, to, hashed, ReadBy(FromImage, from).2.pos)
  {
    hide WriteTo, ReadBy;
    ReadsImage(from);
    var q := ReadBy(FromImage, from).2.pos;
    var marked := from.(content := Marked(|from.content|, q));
    AlikeRead(from, marked);
    ReadsImage(marked);
    var (rd, data, from') := ReadBy(FromImage, marked);
    AlikeWritten(to, to, ReadBy(FromImage, from).1, data);
    var (wr, to') := WriteTo(to, data);
    Overwrites(to, data);
    assert data[q - to.pos] == 0;
    assert to'.content[..to'.pos][q] == (to.content[..to.pos] + data[..wr])[q] == 0;
    if to'.pos < |to.content| {
      PumpKeepsHead(from', to', hashed + data, q);
    }
  }

  /** A pass that reads more of the image than it writes: the first byte that was not written is never read again. */
  lemma ImageNotWritten(from: Chan, to: Chan, hashed: bytes)
    requires from.Valid() && to.Valid() && !to.grows && |from.content| <= |to.content|
    requires var (rd, data, from') := ReadBy(FromImage, from); var (wr, to') := WriteTo(to, data);
      rd > 0 && wr > 0 && to'.pos < from'.pos
    requires Pump(FromImage, from, to, |to.content|, to.pos, hashed).res == 0
    ensures Loses(from, to, hashed, WriteTo(to, ReadBy(FromImage, from).1).1.pos)
  {
    hide WriteTo, ReadBy;
    ReadsImage(from);
    var q := WriteTo(to, ReadBy(FromImage, from).1).1.pos;
    var marked := from.(content := Marked(|from.content|, q));
    AlikeRuns(from, to, marked, to, hashed, hashed);
    AlikeRead(from, marked);
    ReadsImage(marked);
    var (rd, data, from') := ReadBy(FromImage, marked);
    AlikeWritten(to, to, ReadBy(FromImage, from).1, data);
    var (wr, to') := WriteTo(to, data);
    Overwrites(to, data);
    assert from'.content[from'.pos..] == Zeros(|from.content| - from'.pos);
    ZerosToTheEnd(from', to', hashed + data, q);
  }

  /** A run that succeeds out of step loses a byte that only positions, lengths and plans determine. */
  lemma {:induction false} FirstLost(from: Chan, to: Chan, hashed: bytes) returns (q: nat)
    requires from.Valid() && to.Valid() && !to.grows && |from.content| <= |to.content|
    requires from.pos == Min(to.pos, |from.content|)
    requires Pump(FromImage, from, to, |to.content|, to.pos, hashed).res == 0 && !InStep(from, to)
    ensures q < |from.content| && AlwaysLoses(from, to, q)
    decreases |to.content| - to.pos
  {
    hide WriteTo, ReadBy, Loses;
    ReadsImage(from);
    var (rd, data, from') := ReadBy(FromImage, from);
    var (wr, to') := WriteTo(to, data);
    Overwrites(to, data);
    if from'.pos < Min(to'.pos, |from.content|) {
      q := from'.pos;
    } else if to'.pos < from'.pos {
      q := to'.pos;
    } else {
      q := FirstLost(from', to', hashed + data);
    }
    forall d: Chan, h: bytes | d.Valid() && Alike(to, d) ensures Loses(from, d, h, q) {
      AlikeWritten(to, d, data, data);
      AlikeRuns(from, to, from, d, hashed, h);
      if from'.pos < Min(to'.pos, |from.content|) {
        PaddingOverImage(from, d, h);
      } else if to'.pos < from'.pos {
        ImageNotWritten(from, d, h);
      } else {
        LostLater(from, to, d, h, q);
      }
    }
  }

  lemma LostLater(from: Chan, to: Chan, d: Chan, h: bytes, q: nat)
    requires from.Valid() && to.Valid() && d.Valid() && !to.grows && Alike(to, d) && q < |from.content| <= |to.content|
    requires var (rd, data, from') := ReadBy(FromImage, from); var (wr, to') := WriteTo(to, data);
      rd > 0 && wr > 0 && to'.pos < |to.content| && |to'.content| == |to.content| && from'.content == from.content
      && !to'.grows && AlwaysLoses(from', to', q)
    ensures Loses(from, d, h, q)
  {
    hide WriteTo, ReadBy;
    var marked := from.(content := Marked(|from.content|, q));
    AlikeRead(from, marked);
    ReadsImage(marked);
    var (_, data0, from0) := ReadBy(FromImage, from);
    var (_, data, from') := ReadBy(FromImage, marked);
    AlikeWritten(to, d, data0, data);
    Overwrites(d, data);
    var d' := WriteTo(d, data).1;
    assert from' == from0.(content := Marked(|from.content|, q));
    assert Loses(from0, d', h + data, q);
  }

  // ----- transfers that are in step -----

  /** The plan lets every transfer move something. */
  ghost predicate Moves(c: Chan) {
    c.fd >= 0 && forall i :: 0 <= i < |c.plan| ==> c.plan[i] > 0
  }

  /** Reads that do not fail, however short, and writes that move something, however little, make a run succeed. */
  lemma {:induction false} RestoreSucceeds(from: Chan, to: Chan, hashed: bytes)
    requires from.Valid() && to.Valid() && !to.grows && to.pos < |to.content| && Moves(to)
    requires from.fd >= 0 && forall i :: 0 <= i < |from.plan| ==> from.plan[i] >= 0
    ensures Pump(FromImage, from, to, |to.content|, to.pos, hashed).res == 0
    decreases |to.content| - to.pos
  {
    hide WriteTo;
    var (rd, data, from') := ReadBy(FromImage, from);
    var (wr, to') := WriteTo(to, data);
    Overwrites(to, data);
    MovesSome(to, data);
    if to'.pos < |to.content| {
      RestoreSucceeds(from', to', hashed + data);
    }
  }

  lemma MovesSome(c: Chan, data: bytes)
    requires c.Valid() && !c.grows && c.pos < |c.content| && Moves(c) && data != []
    ensures var (wr, c') := WriteTo(c, data); wr > 0 && Moves(c')
  {
  }

  /** Transfers that are short only at the ends are in step. */
  lemma {:induction false} SmoothInStep(from: Chan, to: Chan)
    requires from.Valid() && to.Valid() && !to.grows && from.Smooth() && to.Smooth()
    requires |from.content| <= |to.content| && from.pos == Min(to.pos, |from.content|) && to.pos < |to.content|
    ensures InStep(from, to)
    decreases |to.content| - to.pos
  {
    hide WriteTo;
    StaysSmooth(from);
    var (rd, data, from') := ReadBy(FromImage, from);
    var (wr, to') := WriteTo(to, data);
    Overwrites(to, data);
    MovesAll(to, data);
    if to'.pos < |to.content| {
      SmoothInStep(from', to');
    }
  }

  /** So restoring is exact if reads are short only at the end of the image and writes only at the end of the device. */
  lemma RestoreIsExact(from: Chan, to: Chan, hashed: bytes)
    requires from.Valid() && to.Valid() && !to.grows && from.Smooth() && to.Smooth()
    requires |from.content| <= |to.content| && from.pos == Min(to.pos, |from.content|) && to.pos < |to.content|
    requires to.content[..to.pos] == Restored(from.content, |to.content|)[..to.pos]
    ensures var r := Pump(FromImage, from, to, |to.content|, to.pos, hashed);
      r.res == 0 && r.to.content == Restored(from.content, |to.content|)
  {
    SmoothInStep(from, to);
    InStepRestores(from, to, hashed);
  }
}
