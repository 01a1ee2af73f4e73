/** The cart side of CMD56 (gc.c) on values: what each command does to the cart and what it answers. */
module GcSpec {
  import opened Bytes
  import opened Fips = Fips197
  import opened Cmd56
  import opened Cmd56Sm

  datatype Cart = Cart(
    lockStatus: bv16,
    keyId: bv16,
    p20: Bytes32,
    p18: Bytes32,
    cartRandom: Bytes32,
    vitaPart: Block,
    cartPart: Block,
    sessionKey: RoundKeys,
    secondaryKey: RoundKeys)

  type Random = b: bytes | |b| == 0x50 witness Zeros(0x50)

  /** What the code does not determine: the bytes rand_bytes delivers, of which a handler uses as many as it asks for,
    * and the initial bytes of an uninitialised local buffer.
    */
  datatype Noise = Noise(random: Random, stack: Block)

  function HandleStart(cart: Cart, request: Request): (Cart, Response) {
    var response := ResponseStart(request);
    (cart.(lockStatus := GC_LOCKED), response.(data := ResponsePayload(Zeros(0xD) + [0x1, 0x1, 0x4])))
  }

  function HandleStatus(cart: Cart, request: Request): (Cart, Response) {
    (cart, ResponseStart(request).(data := ResponsePayload(Bytes16(cart.lockStatus))))
  }

  /** Only the bytes from 0xD on are random. */
  function CartRandom(random: Random): (r: Bytes32) {
    [0x00, 0x01, 0x00, 0x01, 0x00, 0x00, 0x00, 0x00, 0x00, 0x00, 0x00, 0x04, 0x00] + random[0xD..0x20]
  }

  function SessionKeyPayload(keyId: bv16, cartRandom: Bytes32): (p: bytes)
    ensures |p| == 0x28
  {
    Bytes16(Swap16(0xE000)) + Bytes16(Swap16(keyId)) + Bytes16(Swap16(0x2)) + Bytes16(Swap16(0x3)) + cartRandom
  }

  function HandleSessionKey(cart: Cart, request: Request, noise: Noise): (Cart, Response) {
    var cartRandom := CartRandom(noise.random);
    var key := match SessionKey(cartRandom, cart.keyId) case Some(k) => k case None => noise.stack;
    (cart.(cartRandom := cartRandom, sessionKey := KeyExpansion(key)),
     ResponseStart(request).(data := ResponsePayload(SessionKeyPayload(cart.keyId, cartRandom))))
  }

  /** The cart's half of the shared random. */
  function CartPart(random: Random): (b: Block) {
    Or80(random[..0x10])
  }

  function HandleSharedRandom(cart: Cart, request: Request, noise: Noise): (Cart, Response)
    requires Fits(request)
  {
    ResponseStartFits(request);
    var response := ResponseStart(request);
    if Swap16(Value16(request.data[0], request.data[1])) == cart.keyId then
      var vitaPart := Or80(request.data[2..0x12]);
      var cartPart := CartPart(noise.random);
      (cart.(vitaPart := vitaPart, cartPart := cartPart),
       response.(data := ResponsePayload(Seal(cart.sessionKey, cartPart + vitaPart))))
    else
      (cart, ResponseError(response, 0x11))
  }

  /** What A3 carries: the secondary key and the challenge. */
  function SecondaryKeyRequest(w: RoundKeys, data: RequestData): (p: bytes)
    ensures |p| == 0x30
  {
    Open(w, data[..0x30])
  }

  /** The test of A3, against the shared random the cart holds. */
  predicate ChallengeMatches(cart: Cart, request: Request) {
    SecondaryKeyRequest(cart.sessionKey, request.data)[0x10..] == cart.vitaPart + cart.cartPart
  }

  function HandleSecondaryKey(cart: Cart, request: Request): (Cart, Response)
    requires Fits(request)
  {
    ResponseStartFits(request);
    var response := ResponseStart(request);
    var secondaryKey := KeyExpansion(SecondaryKeyRequest(cart.sessionKey, request.data)[..0x10]);
    if ChallengeMatches(cart, request) then
      (cart.(secondaryKey := secondaryKey, lockStatus := GC_UNLOCKED), response)
    else
      (cart.(secondaryKey := secondaryKey, lockStatus := GC_LOCKED), ResponseError(response, 0xF1))
  }

  function PaddedAnswer(random: Random, challenge: Block, secret: Bytes32): (p: bytes)
    ensures |p| == 0x40
  {
    random[..0x8] + challenge + secret + random[0x38..0x40]
  }

  function HandleVerify(cart: Cart, request: Request, noise: Noise): (Cart, Response) {
    var p := PaddedAnswer(noise.random, Or80(request.data[..0x10]), cart.cartRandom);
    (cart, ResponseStart(request).(data := ResponsePayload(Seal(cart.secondaryKey, p))))
  }

  /** A sealed answer followed by its signature. */
  function Signed(w: RoundKeys, response: Response, p: bytes): Response
    requires |p| % 16 == 0 && |p| <= 0x40
  {
    var sealed := Seal(w, p);
    response.(data := ResponsePayload(sealed + Signature(w, ResponseHeader(response), sealed)))
  }

  predicate RequestSigned(w: RoundKeys, request: Request) {
    Signature(w, RequestHeader(request), request.data[..0x20]) == request.data[0x20..0x30]
  }

  function Packet18Challenge(w: RoundKeys, request: Request): (p: bytes)
    ensures |p| == 0x20
  {
    Open(w, request.data[..0x20])
  }

  function HandleP18(cart: Cart, request: Request): (Cart, Response)
    requires Fits(request)
  {
    ResponseStartFits(request);
    var response := ResponseStart(request);
    if RequestSigned(cart.secondaryKey, request) then
      var p := Packet18Challenge(cart.secondaryKey, request);
      if (p[0x1f] != 0x2 || p[0x1f] != 0x3) && OrByte(p[0]) != p[0] then
        (cart, ResponseError(response, 0x11))
      else
        (cart, Signed(cart.secondaryKey, response, p[..0x10] + cart.p18))
    else
      (cart, ResponseError(response, 0xF4))
  }

  function HandleP20(cart: Cart, request: Request, noise: Noise): (Cart, Response) {
    var p := PaddedAnswer(noise.random, Or80(request.data[..0x10]), cart.p20);
    (cart, Signed(cart.secondaryKey, ResponseStart(request), p))
  }

  function HandleUnknown(cart: Cart, request: Request): (Cart, Response)
    requires Fits(request)
  {
    ResponseStartFits(request);
    (cart, ResponseError(ResponseStart(request), 0x11))
  }

  function HandleRequest(cart: Cart, request: Request, noise: Noise): (Cart, Response)
    requires Fits(request) || AlwaysAnswered(request.command)
  {
    if request.command == CMD_START then HandleStart(cart, request)
    else if request.command == CMD_GET_STATUS then HandleStatus(cart, request)
    else if request.command == CMD_GENERATE_SESSION_KEY then HandleSessionKey(cart, request, noise)
    else if request.command == CMD_EXCHANGE_SHARED_RANDOM then HandleSharedRandom(cart, request, noise)
    else if request.command == CMD_EXCHANGE_SECONDARY_KEY_AND_VERIFY_SESSION then HandleSecondaryKey(cart, request)
    else if request.command == CMD_VERIFY_SECONDARY_KEY then HandleVerify(cart, request, noise)
    else if request.command == CMD_GET_P18_KEY_AND_CMAC_SIGNATURE then HandleP18(cart, request)
    else if request.command == CMD_GET_P20_KEY_AND_CMAC_SIGNATURE then HandleP20(cart, request, noise)
    else HandleUnknown(cart, request)
  }

  /** An error response, should there be one, stays inside its structure. */
  predicate Safe(request: Request) {
    Fits(request) || request.magic != CMD56_MAGIC || AlwaysAnswered(request.command)
  }

  /** gc_cmd56_run; `before` is what the response buffer holds when it is called. */
  function Run(cart: Cart, request: Request, before: Response, noise: Noise): (Cart, Response)
    requires Safe(request)
  {
    if request.magic != CMD56_MAGIC then (cart, before) else HandleRequest(cart, request, noise)
  }

  /** A3, and B1 when its signature is right, are decrypted in the caller's request buffer. */
  function RequestAfter(cart: Cart, request: Request): Request {
    if request.magic != CMD56_MAGIC then request
    else if request.command == CMD_EXCHANGE_SECONDARY_KEY_AND_VERIFY_SESSION then
      request.(data := Splice(request.data, 0, SecondaryKeyRequest(cart.sessionKey, request.data)))
    else if request.command == CMD_GET_P18_KEY_AND_CMAC_SIGNATURE && RequestSigned(cart.secondaryKey, request) then
      request.(data := Splice(request.data, 0, Packet18Challenge(cart.secondaryKey, request)))
    else request
  }

  /** gc_cmd56_init. */
  function Init(p20: Bytes32, p18: Bytes32): Cart {
    Cart(GC_LOCKED, RETAIL_KEY_ID, p20, p18, Zeros(0x20), ZERO_BLOCK, ZERO_BLOCK, Zeros(176), Zeros(176))
  }
}
