/** What the cart answers, said in terms of the packets alone: which error code, when, and what a reader finds behind
  * the encryption and the signature. `before` and `noise` are arbitrary throughout.
  */
module CartAnswers {
  import opened Bytes
  import opened Fips = Fips197
  import Cbc
  import Cmac
  import opened Cmd56
  import opened Cmd56Sm
  import opened PacketFields
  import opened GcSpec

  predicate Addressed(request: Request, command: bv8) {
    request.magic == CMD56_MAGIC && request.command == command && Safe(request)
  }

  function Answer(cart: Cart, request: Request, before: Response, noise: Noise): Response
    requires Safe(request)
  {
    GcSpec.Run(cart, request, before, noise).1
  }

  // ----- error codes -----

  /** A2 is refused with 0x11 exactly when it names another key id, high byte first, than the cart's. */
  lemma SharedRandomErrors(cart: Cart, request: Request, before: Response, noise: Noise)
    requires Addressed(request, 0xA2)
    ensures Answer(cart, request, before, noise).errorCode
      == if HighByteFirst(request.data[0], request.data[1]) == cart.keyId then 0x00 else 0x11
  {
    hide Seal, ResponsePayload, ErrorData, CartPart, Or80, SwapNumber, Swap16, Value16, HighByteFirst;
    HighByteFirstIs(request.data[0], request.data[1]);
  }

  /** A3 is refused with 0xF1 exactly when it does not end with the two halves of the shared random. */
  lemma SecondaryKeyErrors(cart: Cart, request: Request, before: Response, noise: Noise)
    requires Addressed(request, 0xA3)
    ensures Answer(cart, request, before, noise).errorCode
      == if Opened(cart.sessionKey, request.data[..0x30])[0x10..] == cart.vitaPart + cart.cartPart then 0x00 else 0xF1
  {
    hide Cbc.Decrypt, KeyExpansion, ErrorData, SwapNumber;
  }

  /** B1 is refused with 0xF4 exactly when the signature behind the challenge is not the MAC of the packet, and then
    * with 0x11 exactly when the challenge does not open to a block with its top bit set.
    */
  lemma Packet18Errors(cart: Cart, request: Request, before: Response, noise: Noise)
    requires Addressed(request, 0xB1)
    ensures Answer(cart, request, before, noise).errorCode
      == if Cmac.Mac(cart.secondaryKey, SignedByB1(request)) != request.data[0x20..0x30] then 0xF4
         else if Opened(cart.secondaryKey, request.data[..0x20])[0] >= 0x80 then 0x00
         else 0x11
  {
    hide Cbc.Decrypt, Cmac.Mac, Seal, ResponsePayload, ErrorData, SwapNumber, ResponseHeader, LowByte;
    var p := Packet18Challenge(cart.secondaryKey, request);
    Or80Is(p[..0x10]);
  }

  /** START, the status, A1, A4 and C1 are never refused; what is not a command always is. */
  lemma OtherErrors(cart: Cart, request: Request, before: Response, noise: Noise)
    requires Safe(request) && request.magic == CMD56_MAGIC
    requires request.command != 0xA2 && request.command != 0xA3 && request.command != 0xB1
    ensures Answer(cart, request, before, noise).errorCode
      == if request.command in [0xC4, 0xC2, 0xA1, 0xA4, 0xC1] then 0x00 else 0x11
  {
    hide Seal, ResponsePayload, ErrorData, SwapNumber, ResponseHeader, Signature, SessionKey, KeyExpansion,
      PaddedAnswer, CartRandom, SessionKeyPayload, Bytes16;
  }

  // ----- framing -----

  function Filled(n: nat, v: bv8): (b: bytes)
    ensures |b| == n
  {
    seq(n, _ => v)
  }

  /** Every answer names the size that was asked for, high byte first and at most 0x200; a refusal puts its error code
    * in place of the response code and fills that size with 0xFF.
    */
  lemma Frame(cart: Cart, request: Request, before: Response, noise: Noise)
    requires Safe(request) && request.magic == CMD56_MAGIC
    ensures var r := Answer(cart, request, before, noise);
      var size := if request.expectedResponseSize > 0x200 then 0x200 else request.expectedResponseSize;
      && r.additionalDataSize == 0
      && 0x100 * (r.responseSize % 0x100) + r.responseSize / 0x100 == size
      && r.responseCode == (if r.errorCode == 0 then request.expectedResponseCode else r.errorCode as nat)
      && (r.errorCode != 0 ==> size <= 0x1f5 && r.data == Filled(size, 0xFF) + Zeros(0x1f5 - size))
  {
    hide Seal, ResponsePayload, ResponseHeader, Signature, SessionKey, KeyExpansion, PaddedAnswer, CartRandom,
      SessionKeyPayload, Bytes16, Open, RequestHeader, Or80;
    var size := if request.expectedResponseSize > 0x200 then 0x200 else request.expectedResponseSize;
    SwapTwice(size);
    if size <= 0x1f5 {
      assert ErrorData(Zeros(0x1f5), size) == Filled(size, 0xFF) + Zeros(0x1f5 - size);
    }
  }

  // ----- contents -----

  /** The data area holds p and is zero behind it. */
  predicate Holds(data: ResponseData, p: bytes) {
    |p| <= 0x1f5 && data == p + Zeros(0x1f5 - |p|)
  }

  /** The data area holds p encrypted, and is zero behind it. */
  predicate HoldsSealed(w: RoundKeys, data: ResponseData, p: bytes)
    requires |p| % 16 == 0 && |p| <= 0x40
  {
    Opened(w, data[..|p|]) == p && data[|p|..] == Zeros(0x1f5 - |p|)
  }

  /** The data area holds p encrypted and the MAC of the packet, and is zero behind them. */
  predicate HoldsSigned(w: RoundKeys, response: Response, p: bytes)
    requires |p| % 16 == 0 && |p| <= 0x40
  {
    && Opened(w, response.data[..|p|]) == p
    && response.data[|p|..|p| + 0x10] == Cmac.Mac(w, SignedByAnswer(response, |p|))
    && response.data[|p| + 0x10..] == Zeros(0x1e5 - |p|)
  }

  lemma PayloadHolds(p: bytes)
    requires |p| <= 0x1f5
    ensures Holds(ResponsePayload(p), p)
  {
  }

  lemma SealedHolds(w: RoundKeys, p: bytes)
    requires |p| % 16 == 0 && |p| <= 0x40
    ensures HoldsSealed(w, ResponsePayload(Seal(w, p)), p)
  {
    hide Cbc.Encrypt, Cbc.Decrypt;
    var c := Seal(w, p);
    OpenSealed(w, p, |p|);
    assert ResponsePayload(c)[..|p|] == c && ResponsePayload(c)[|p|..] == Zeros(0x1f5 - |p|);
  }

  lemma SignedHolds(w: RoundKeys, response: Response, p: bytes)
    requires |p| % 16 == 0 && |p| <= 0x40
    ensures HoldsSigned(w, Signed(w, response, p), p)
  {
    hide Cbc.Encrypt, Cbc.Decrypt, Cmac.Mac, LowByte;
    var n := |p|;
    var c, r := Seal(w, p), Signed(w, response, p);
    var t := Signature(w, ResponseHeader(response), c);
    OpenSealed(w, p, n);
    assert r.data == c + t + Zeros(0x1e5 - n);
    assert r.data[..n] == c && r.data[n..n + 0x10] == t && r.data[n + 0x10..] == Zeros(0x1e5 - n);
    assert SignedByAnswer(r, n) == SignedMessage(ResponseHeader(response), c);
  }

  /** START: three fixed bytes; the status: 0xFF for locked and 0x00 for unlocked, low byte first. */
  lemma OpeningAnswers(cart: Cart, request: Request, before: Response, noise: Noise)
    requires Addressed(request, 0xC4) || Addressed(request, 0xC2)
    ensures var d := Answer(cart, request, before, noise).data;
      && (request.command == 0xC4 ==> Holds(d, Zeros(0xD) + [0x01, 0x01, 0x04]))
      && (request.command == 0xC2 && cart.lockStatus == GC_LOCKED ==> Holds(d, [0xFF, 0x00]))
      && (request.command == 0xC2 && cart.lockStatus == GC_UNLOCKED ==> Holds(d, [0x00, 0x00]))
  {
    hide ResponsePayload, Holds, Bytes16, Value16;
    PayloadHolds(Zeros(0xD) + [0x01, 0x01, 0x04]);
    PayloadHolds(Bytes16(cart.lockStatus));
    Fields16(0xFF, 0x00);
    Fields16(0x00, 0x00);
  }

  /** A1: a new challenge of which the first 0xD bytes are fixed, and the key id, both as sent and as kept; and the
    * session key that goes with them.
    */
  lemma SessionKeyAnswer(cart: Cart, request: Request, before: Response, noise: Noise, high: bv8, low: bv8)
    requires Addressed(request, 0xA1) && HighByteFirst(high, low) == cart.keyId
    ensures var (c, r) := GcSpec.Run(cart, request, before, noise);
      var fixed: bytes := [0x00, 0x01, 0x00, 0x01, 0x00, 0x00, 0x00, 0x00, 0x00, 0x00, 0x00, 0x04, 0x00];
      var fields: bytes := [0xE0, 0x00, high, low, 0x00, 0x02, 0x00, 0x03];
      && c.cartRandom == fixed + noise.random[0xD..0x20]
      && Holds(r.data, fields + c.cartRandom)
      && c == cart.(cartRandom := c.cartRandom, sessionKey := c.sessionKey)
      && (SessionKey(c.cartRandom, cart.keyId).Some? ==>
            c.sessionKey == KeyExpansion(SessionKey(c.cartRandom, cart.keyId).value))
      && (SessionKey(c.cartRandom, cart.keyId).None? ==> c.sessionKey == KeyExpansion(noise.stack))
  {
    hide SessionKey, KeyExpansion, ResponsePayload, Holds, SwapNumber, Swap16, Value16, Bytes16, HighByteFirst;
    var x := CartRandom(noise.random);
    PayloadHolds(SessionKeyPayload(cart.keyId, x));
    FieldsOfA1(high, low);
  }

  lemma FieldsOfA1(high: bv8, low: bv8)
    ensures Bytes16(Swap16(0xE000)) + Bytes16(Swap16(HighByteFirst(high, low))) + Bytes16(Swap16(0x2))
            + Bytes16(Swap16(0x3))
      == [0xE0, 0x00, high, low, 0x00, 0x02, 0x00, 0x03]
  {
    hide Swap16, Bytes16, HighByteFirst;
    FixedFields();
    SwappedBytes(high, low);
    SwappedBytes(0xE0, 0x00);
    SwappedBytes(0x00, 0x02);
    SwappedBytes(0x00, 0x03);
  }

  lemma FixedFields()
    ensures HighByteFirst(0xE0, 0x00) == 0xE000 && HighByteFirst(0x00, 0x02) == 0x2 && HighByteFirst(0x00, 0x03) == 0x3
  {
  }

  /** A2: the halves of the shared random, the cart's first, under the session key. */
  lemma SharedRandomAnswer(cart: Cart, request: Request, before: Response, noise: Noise)
    requires Addressed(request, 0xA2)
    ensures var (c, r) := GcSpec.Run(cart, request, before, noise);
      var mine, theirs := TopSet(noise.random[..0x10]), TopSet(request.data[2..0x12]);
      if r.errorCode == 0 then
        c == cart.(cartPart := mine, vitaPart := theirs) && HoldsSealed(cart.sessionKey, r.data, mine + theirs)
      else c == cart
  {
    hide Seal, ResponsePayload, ErrorData, SwapNumber, Swap16, Value16, Or80, HoldsSealed, TopSet;
    var mine: bytes, theirs: bytes := Or80(noise.random[..0x10]), Or80(request.data[2..0x12]);
    Or80Is(noise.random[..0x10]);
    Or80Is(request.data[2..0x12]);
    SealedHolds(cart.sessionKey, mine + theirs);
  }

  /** A3: the secondary key is the one sent, right or wrong; an accepted request is answered with zeros. */
  lemma SecondaryKeyAnswer(cart: Cart, request: Request, before: Response, noise: Noise)
    requires Addressed(request, 0xA3)
    ensures var (c, r) := GcSpec.Run(cart, request, before, noise);
      && c.secondaryKey == KeyExpansion(Opened(cart.sessionKey, request.data[..0x30])[..0x10])
      && c == cart.(secondaryKey := c.secondaryKey, lockStatus := if r.errorCode == 0 then GC_UNLOCKED else GC_LOCKED)
      && (r.errorCode == 0 ==> Holds(r.data, []))
  {
    hide Cbc.Decrypt, KeyExpansion, ErrorData, SwapNumber;
  }

  /** A4: the challenge with its top bit set, and the cart's own of A1, padded with eight random bytes on both ends. */
  lemma VerifyAnswer(cart: Cart, request: Request, before: Response, noise: Noise)
    requires Addressed(request, 0xA4)
    ensures var (c, r) := GcSpec.Run(cart, request, before, noise);
      && c == cart
      && HoldsSealed(cart.secondaryKey, r.data,
                     noise.random[..8] + TopSet(request.data[..0x10]) + cart.cartRandom + noise.random[0x38..0x40])
  {
    hide Seal, ResponsePayload, SwapNumber, Or80, HoldsSealed, TopSet;
    Or80Is(request.data[..0x10]);
    SealedHolds(cart.secondaryKey, PaddedAnswer(noise.random, Or80(request.data[..0x10]), cart.cartRandom));
  }

  /** The challenge of a B1 as it opens, and a key. */
  function EchoAndKey(w: RoundKeys, request: Request, key: Bytes32): (p: bytes)
    ensures |p| == 0x30
  {
    Opened(w, request.data[..0x20])[..0x10] + key
  }

  lemma EchoAndKeyIs(w: RoundKeys, request: Request, key: Bytes32)
    ensures EchoAndKey(w, request, key) == Packet18Challenge(w, request)[..0x10] + key
  {
    hide Cbc.Decrypt;
  }

  /** B1: the challenge as it was opened and the packet 18 key, signed. */
  lemma Packet18Answer(cart: Cart, request: Request, before: Response, noise: Noise)
    requires Addressed(request, 0xB1)
    ensures var (c, r) := GcSpec.Run(cart, request, before, noise);
      && c == cart
      && (r.errorCode == 0 ==>
            HoldsSigned(cart.secondaryKey, r, EchoAndKey(cart.secondaryKey, request, cart.p18)))
  {
    hide Packet18Challenge, EchoAndKey, Signed, ErrorData, SwapNumber, RequestSigned, HoldsSigned, OrByte;
    EchoAndKeyIs(cart.secondaryKey, request, cart.p18);
    SignedHolds(cart.secondaryKey, ResponseStart(request), EchoAndKey(cart.secondaryKey, request, cart.p18));
  }

  /** C1: the challenge with its top bit set and the packet 20 key, padded as for A4, signed. */
  lemma Packet20Answer(cart: Cart, request: Request, before: Response, noise: Noise)
    requires Addressed(request, 0xC1)
    ensures var (c, r) := GcSpec.Run(cart, request, before, noise);
      && c == cart
      && HoldsSigned(cart.secondaryKey, r,
                     noise.random[..8] + TopSet(request.data[..0x10]) + cart.p20 + noise.random[0x38..0x40])
  {
    hide Signed, SwapNumber, Or80, HoldsSigned, TopSet;
    Or80Is(request.data[..0x10]);
    SignedHolds(cart.secondaryKey, ResponseStart(request),
                PaddedAnswer(noise.random, Or80(request.data[..0x10]), cart.p20));
  }

  /** The first n bytes opened where they are. */
  function OpenedInPlace(w: RoundKeys, data: RequestData, n: nat): (d: RequestData)
    requires n % 16 == 0 && n <= 0x30
  {
    Opened(w, data[..n]) + data[n..]
  }

  /** The caller's request buffer: an A3, and a B1 unless it was refused for its signature, is left there opened. */
  lemma RequestBuffer(cart: Cart, request: Request, before: Response, noise: Noise)
    requires Safe(request) && request.magic == CMD56_MAGIC
    ensures var errorCode := Answer(cart, request, before, noise).errorCode;
      var n := if request.command == 0xA3 then 0x30
               else if request.command == 0xB1 && errorCode != 0xF4 then 0x20
               else 0;
      var w := if request.command == 0xA3 then cart.sessionKey else cart.secondaryKey;
      RequestAfter(cart, request) == request.(data := OpenedInPlace(w, request.data, n))
  {
    hide Cbc.Decrypt, GcSpec.Run, RequestSigned, Cmac.Mac;
    if request.command == 0xB1 {
      Packet18Refused(cart, request, before, noise);
    } else if request.command != 0xA3 {
      assert Opened(cart.secondaryKey, request.data[..0]) + request.data[0..] == request.data;
    }
  }

  lemma Packet18Refused(cart: Cart, request: Request, before: Response, noise: Noise)
    requires Addressed(request, 0xB1)
    ensures Answer(cart, request, before, noise).errorCode == 0xF4 <==> !RequestSigned(cart.secondaryKey, request)
  {
    hide Open, ErrorData, SwapNumber, RequestSigned, Seal, Signature, ResponsePayload;
    ResponseStartFits(request);
  }
}
