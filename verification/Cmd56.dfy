/** The CMD56 packets (cmd56.h, cmd56.c): two packed structures of 0x200 bytes each, framed the same way by both ends.
  * Fields that the code treats as numbers are numbers; the data areas are bytes.
  */
module Cmd56 {
  import opened Bytes

  const CMD_START: bv8 := 0xC4
  const CMD_GET_STATUS: bv8 := 0xC2
  const CMD_GENERATE_SESSION_KEY: bv8 := 0xA1
  const CMD_EXCHANGE_SHARED_RANDOM: bv8 := 0xA2
  const CMD_EXCHANGE_SECONDARY_KEY_AND_VERIFY_SESSION: bv8 := 0xA3
  const CMD_VERIFY_SECONDARY_KEY: bv8 := 0xA4
  const CMD_GET_P18_KEY_AND_CMAC_SIGNATURE: bv8 := 0xB1
  const CMD_GET_P20_KEY_AND_CMAC_SIGNATURE: bv8 := 0xC1

  const GC_LOCKED: bv16 := 0xFF
  const GC_UNLOCKED: bv16 := 0x00

  type Bytes32 = b: bytes | |b| == 0x20 witness Zeros(0x20)
  type RequestData = d: bytes | |d| == 0x1d1 witness Zeros(0x1d1)
  type ResponseData = d: bytes | |d| == 0x1f5 witness Zeros(0x1f5)

  const CMD56_MAGIC: Bytes32 := [
    0xDD, 0x10, 0x25, 0x44, 0x15, 0x23, 0xFD, 0xC0, 0xF9, 0xE9, 0x15, 0x26, 0xDC, 0x2A, 0xE0, 0x84,
    0xA9, 0x03, 0xA2, 0x97, 0xD4, 0xBB, 0xF8, 0x52, 0xD3, 0xD4, 0x94, 0x2C, 0x89, 0x03, 0xCC, 0x77]

  datatype Request = Request(
    magic: Bytes32,
    expectedResponseCode: nat,
    requestSize: nat,
    expectedResponseSize: nat,
    command: bv8,
    additionalDataSize: nat,
    data: RequestData)

  datatype Response = Response(
    responseCode: nat,
    additionalDataSize: nat,
    responseSize: nat,
    errorCode: bv8,
    data: ResponseData)

  const RESPONSE_BYTES: nat := 0x200

  // ----- 16-bit fields -----

  function Swap16(x: bv16): bv16 {
    (x << 8) | (x >> 8)
  }

  /** The two bytes that a 16-bit field occupies, low byte first. */
  function Bytes16(x: bv16): (b: bytes)
    ensures |b| == 2
  {
    [(x & 0xff) as bv8, (x >> 8) as bv8]
  }

  function Value16(lo: bv8, hi: bv8): bv16 {
    ((hi as bv16) << 8) | (lo as bv16)
  }

  lemma Field16(x: bv16)
    ensures Value16(Bytes16(x)[0], Bytes16(x)[1]) == x
    ensures Swap16(Swap16(x)) == x
  {
  }

  /** A field is low byte first, and swapping it exchanges its two bytes. */
  lemma Fields16(a: bv8, b: bv8)
    ensures Swap16(Value16(a, b)) == Value16(b, a)
    ensures Bytes16(Value16(a, b)) == [a, b]
    ensures Value16(a, b) == a as bv16 + 0x100 * (b as bv16)
  {
  }

  /** endian_swap of a 16-bit number. */
  function SwapNumber(n: nat): (m: nat)
    requires n < 0x1_0000
    ensures m < 0x1_0000
  {
    n % 0x100 * 0x100 + n / 0x100
  }

  lemma SwapTwice(n: nat)
    requires n < 0x1_0000
    ensures SwapNumber(SwapNumber(n)) == n
  {
    TwoDigits(n % 0x100, n / 0x100);
  }

  lemma TwoDigits(high: nat, low: nat)
    requires high < 0x100 && low < 0x100
    ensures (high * 0x100 + low) / 0x100 == high && (high * 0x100 + low) % 0x100 == low
  {
  }

  // ----- framing -----

  function RequestStart(command: bv8, additionalDataSize: nat, expectedResponseSize: nat,
                        expectedResponseCode: nat): Request
  {
    Request(CMD56_MAGIC, expectedResponseCode, additionalDataSize, expectedResponseSize, command,
            additionalDataSize, Zeros(0x1d1))
  }

  function ResponseStart(request: Request): Response {
    var size := if request.expectedResponseSize > RESPONSE_BYTES then RESPONSE_BYTES else request.expectedResponseSize;
    Response(request.expectedResponseCode, 0, SwapNumber(size), 0, Zeros(0x1f5))
  }

  /** The data area under the error fill: `size` bytes of 0xff, which have to stay inside it. */
  function ErrorData(data: ResponseData, size: nat): (d: ResponseData)
    requires size <= 0x1f5
  {
    Splice(data, 0, seq(size, _ => 0xff))
  }

  predicate SizeFits(response: Response) {
    response.responseSize < 0x1_0000 && SwapNumber(response.responseSize) <= 0x1f5
  }

  function ResponseError(response: Response, error: bv8): Response
    requires SizeFits(response)
  {
    response.(errorCode := error, responseCode := error as nat,
              data := ErrorData(response.data, SwapNumber(response.responseSize)))
  }

  /** What the cart needs of a request so that an error response stays inside its structure. */
  predicate Fits(request: Request) {
    request.expectedResponseSize <= 0x1f5
  }

  lemma ResponseStartFits(request: Request)
    requires Fits(request)
    ensures SizeFits(ResponseStart(request))
    ensures SwapNumber(ResponseStart(request).responseSize) == request.expectedResponseSize
  {
    SwapTwice(request.expectedResponseSize);
  }

  /** The commands that are never answered with an error. */
  predicate AlwaysAnswered(command: bv8) {
    || command == CMD_START || command == CMD_GET_STATUS || command == CMD_GENERATE_SESSION_KEY
    || command == CMD_VERIFY_SECONDARY_KEY || command == CMD_GET_P20_KEY_AND_CMAC_SIGNATURE
  }

  // ----- the three bytes that enter a CMAC ahead of the data -----

  function RequestHeader(request: Request): (h: bytes)
    ensures |h| == 3
  {
    [request.command, 0x00, LowByte(request.additionalDataSize)]
  }

  function ResponseHeader(response: Response): (h: bytes)
    ensures |h| == 3
  {
    [LowByte(response.responseSize), LowByte(response.responseSize / 0x100), 0x00]
  }

  /** make_int24(command, 0, additional_data_size): both fields are bytes. */
  lemma RequestHeaderIs(request: Request)
    requires request.additionalDataSize < 0x100
    ensures Number(RequestHeader(request)) == request.command as nat + 0x10000 * request.additionalDataSize
  {
    hide LowByte, Number;
    LowByteValue(request.additionalDataSize);
    NumberOfThree(request.command, 0x00, LowByte(request.additionalDataSize));
  }

  /** The three low bytes of a 32-bit variable that holds the 16-bit size field. */
  lemma ResponseHeaderIs(response: Response)
    requires response.responseSize < 0x1_0000
    ensures Number(ResponseHeader(response)) == response.responseSize
  {
    hide LowByte, Number;
    TwoLowBytes(response.responseSize);
    NumberOfThree(LowByte(response.responseSize), LowByte(response.responseSize / 0x100), 0x00);
  }

  lemma NumberOfThree(a: bv8, b: bv8, c: bv8)
    ensures Number([a, b, c]) == a as nat + 0x100 * (b as nat) + 0x10000 * (c as nat)
  {
    assert [a, b, c][1..] == [b, c] && [b, c][1..] == [c] && [c][1..] == [];
    assert Number([c]) == c as nat;
    assert Number([b, c]) == b as nat + 0x100 * (c as nat);
  }

  lemma TwoLowBytes(n: nat)
    requires n < 0x1_0000
    ensures LowByte(n) as nat + 0x100 * (LowByte(n / 0x100) as nat) == n
  {
    hide LowByte;
    LowByteValue(n);
    LowByteValue(n / 0x100);
    TwoDigitsJoin(n, LowByte(n) as nat, LowByte(n / 0x100) as nat);
  }

  lemma TwoDigitsJoin(n: nat, low: nat, high: nat)
    requires n < 0x1_0000 && low == n % 0x100 && high == n / 0x100 % 0x100
    ensures low + 0x100 * high == n
  {
  }

  lemma RequestHeaderOf(r: Request, s: Request)
    requires r.command == s.command && r.additionalDataSize == s.additionalDataSize
    ensures RequestHeader(r) == RequestHeader(s)
  {
  }

  lemma ResponseHeaderOf(r: Response, s: Response)
    requires r.responseSize == s.responseSize
    ensures ResponseHeader(r) == ResponseHeader(s)
  {
  }

  // ----- data areas -----

  /** A data area that starts with a payload and is zero from there on. */
  function RequestPayload(p: bytes): (d: RequestData)
    requires |p| <= 0x1d1
  {
    Splice(Zeros(0x1d1), 0, p)
  }

  function ResponsePayload(p: bytes): (d: ResponseData)
    requires |p| <= 0x1f5
  {
    Splice(Zeros(0x1f5), 0, p)
  }

  lemma PayloadSlices(p: bytes, a: nat, b: nat)
    requires a <= b <= |p| <= 0x1d1
    ensures RequestPayload(p)[a..b] == p[a..b]
    ensures ResponsePayload(p)[a..b] == p[a..b]
  {
  }

  /** or_w_80: every sixteenth byte gets its top bit. */
  function OrByte(x: bv8): bv8 {
    x | 0x80
  }

  function Or80(b: Block): (c: Block) {
    b[0 := OrByte(b[0])]
  }

  lemma Or80Idempotent(b: Block)
    ensures Or80(Or80(b)) == Or80(b)
    ensures Or80(b)[1..] == b[1..]
    ensures OrByte(Or80(b)[0]) == Or80(b)[0]
    ensures Or80(b)[0] == if b[0] < 0x80 then b[0] + 0x80 else b[0]
  {
  }
}
