/** What a reader finds in a packet: numbers, blocks with their top bit set, encrypted areas and the messages that are
  * signed, all in terms of bytes, AES-CBC and AES-CMAC.
  */
module PacketFields {
  import opened Bytes
  import opened Fips = Fips197
  import Cbc
  import opened Cmd56

  /** A whole number of blocks decrypted with a zero initialization vector. */
  function Opened(w: RoundKeys, c: bytes): (p: bytes)
    requires |c| % 16 == 0
    ensures |p| == |c|
  {
    Cbc.Decrypt(w, Zeros(16), c)
  }

  /** A block with its top bit set. */
  function TopSet(b: Block): (c: Block) {
    [if b[0] < 0x80 then b[0] + 0x80 else b[0]] + b[1..]
  }

  lemma Or80Is(b: Block)
    ensures Or80(b) == TopSet(b)
    ensures OrByte(b[0]) == b[0] <==> b[0] >= 0x80
  {
    Or80Idempotent(b);
  }

  function HighByteFirst(high: bv8, low: bv8): bv16 {
    0x100 * (high as bv16) + low as bv16
  }

  lemma HighByteFirstIs(high: bv8, low: bv8)
    ensures Swap16(Value16(high, low)) == HighByteFirst(high, low)
  {
    hide Swap16, Value16;
    Fields16(high, low);
    Fields16(low, high);
  }

  lemma SwappedBytes(high: bv8, low: bv8)
    ensures Bytes16(Swap16(HighByteFirst(high, low))) == [high, low]
  {
    hide Swap16, Value16, Bytes16, HighByteFirst;
    HighByteFirstIs(high, low);
    Field16(Value16(high, low));
    Fields16(high, low);
  }

  /** The message that a B1 signs: its command and additional data size, and its first two blocks. */
  function SignedByB1(request: Request): (m: bytes) {
    [0xB1, 0x00, LowByte(request.additionalDataSize)] + Zeros(13) + request.data[..0x20]
  }

  /** The message that an answer signs: its swapped size field, and the n bytes ahead of the signature. */
  function SignedByAnswer(response: Response, n: nat): (m: bytes)
    requires n <= 0x1f5
  {
    [LowByte(response.responseSize), LowByte(response.responseSize / 0x100), 0x00] + Zeros(13) + response.data[..n]
  }
}
