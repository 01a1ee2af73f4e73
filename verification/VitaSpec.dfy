/** The console side of CMD56 (vita.c) on values. Every step of the exchange prepares a request, and finishes by
  * judging whatever came back; the run is the ten steps in order until one of them fails.
  */
module VitaSpec {
  import opened Bytes
  import opened Fips = Fips197
  import opened Cmd56
  import opened Cmd56Sm

  datatype Vita = Vita(
    lockStatus: bv16,
    allowPrototypeKeys: bool,
    keyId: bv16,
    p20: Bytes32,
    p18: Bytes32,
    cartRandom: Bytes32,
    vitaPart: Block,
    cartPart: Block,
    sessionKey: RoundKeys,
    secondaryKey: RoundKeys)

  /** The state after memset. */
  function Cleared(): Vita {
    Vita(0, false, 0, Zeros(0x20), Zeros(0x20), Zeros(0x20), ZERO_BLOCK, ZERO_BLOCK, Zeros(176), Zeros(176))
  }

  datatype Code =
    | Ok
    | InvalidArgument
    | StartFail
    | InvalidKeyId
    | VerifySharedRandomInvalid
    | VerifyCartRandomChallengeInvalid
    | VerifyCartRandomInvalidCartRandom
    | P18KeyChallengeFail
    | P18KeyInvalidCmac
    | P20KeyChallengeFail
    | P20KeyInvalidCmac
    | Locked
    | Unlocked
    | Reported

  datatype Step =
    | Start
    | StatusLocked
    | GetSessionKey
    | SharedRandom
    | SecondaryKey
    | StatusUnlocked
    | VerifySecondaryKey
    | Packet18(kind: bv8)
    | Packet20

  const SCRIPT: seq<Step> := [
    Start, StatusLocked, GetSessionKey, SharedRandom, SecondaryKey, StatusUnlocked, VerifySecondaryKey,
    Packet18(0x2), Packet18(0x3), Packet20]

  /** What is encrypted in a B1 request: the signature field is still zero at that point. */
  function Packet18Plain(challenge: Block, kind: bv8): (p: bytes)
    ensures |p| == 0x30
  {
    challenge + Zeros(0xF) + [kind] + Zeros(0x10)
  }

  function Packet18Request(w: RoundKeys, challenge: Block, kind: bv8): Request {
    var start := RequestStart(CMD_GET_P18_KEY_AND_CMAC_SIGNATURE, 0x33, 0x43, 0x11);
    var sealed := Seal(w, Packet18Plain(challenge, kind))[..0x20];
    start.(data := RequestPayload(sealed + Signature(w, RequestHeader(start), sealed)))
  }

  function StartRequest(): Request {
    RequestStart(CMD_START, 0x3, 0x13, 0x31)
  }

  function StatusRequest(): Request {
    RequestStart(CMD_GET_STATUS, 0x3, 0x5, 0x23)
  }

  function SessionKeyRequest(): Request {
    RequestStart(CMD_GENERATE_SESSION_KEY, 0x3, 0x2B, 0x2)
  }

  function PrepareSharedRandom(vita: Vita, random: Block): (Vita, Request) {
    (vita.(vitaPart := random),
     RequestStart(CMD_EXCHANGE_SHARED_RANDOM, 0x15, 0x23, 0x3).(
       data := RequestPayload(Bytes16(Swap16(vita.keyId)) + random)))
  }

  function PrepareSecondaryKey(vita: Vita, random: Block): (Vita, Request) {
    var v := vita.(
      secondaryKey := KeyExpansion(random), vitaPart := Or80(vita.vitaPart), cartPart := Or80(vita.cartPart));
    (v,
     RequestStart(CMD_EXCHANGE_SECONDARY_KEY_AND_VERIFY_SESSION, 0x33, 0x3, 0x5).(
       data := RequestPayload(Seal(vita.sessionKey, random + v.vitaPart + v.cartPart))))
  }

  function VerifyRequest(random: Block): Request {
    RequestStart(CMD_VERIFY_SECONDARY_KEY, 0x13, 0x43, 0x7).(data := RequestPayload(Or80(random)))
  }

  function Packet20Request(random: Block): Request {
    RequestStart(CMD_GET_P20_KEY_AND_CMAC_SIGNATURE, 0x13, 0x53, 0x19).(data := RequestPayload(Or80(random)))
  }

  /** The state and the request at the moment of sending; `random` is the block that rand_bytes delivers, if asked. */
  function Prepare(step: Step, vita: Vita, random: Block): (Vita, Request) {
    match step
    case Start => (vita, StartRequest())
    case StatusLocked => (vita, StatusRequest())
    case GetSessionKey => (vita, SessionKeyRequest())
    case SharedRandom => PrepareSharedRandom(vita, random)
    case SecondaryKey => PrepareSecondaryKey(vita, random)
    case StatusUnlocked => (vita, StatusRequest())
    case VerifySecondaryKey => (vita, VerifyRequest(random))
    case Packet18(kind) => (vita, Packet18Request(vita.secondaryKey, Or80(random), kind))
    case Packet20 => (vita, Packet20Request(random))
  }

  function Status(response: Response): Code {
    if response.errorCode != 0x0 then Reported else Ok
  }

  function FinishStart(response: Response): Code {
    if response.data[0] == 0x00 && response.data[1] == 0x00 then Status(response) else StartFail
  }

  function FinishStatus(vita: Vita, response: Response, expected: bv16, otherwise: Code): (Code, Vita) {
    var v := vita.(lockStatus := Value16(response.data[0], response.data[1]));
    (if Status(response) != Ok then Reported else if v.lockStatus != expected then otherwise else Ok, v)
  }

  function FinishSessionKey(vita: Vita, response: Response): (Code, Vita) {
    var v := vita.(
      keyId := Swap16(Value16(response.data[2], response.data[3])), cartRandom := response.data[0x8..0x28]);
    if v.allowPrototypeKeys && v.keyId > PROTOTYPE_KEY_ID1 then (InvalidKeyId, v)
    else
      match SessionKey(v.cartRandom, v.keyId)
      case None => (InvalidKeyId, v)
      case Some(key) => (Status(response), v.(sessionKey := KeyExpansion(key)))
  }

  function FinishSharedRandom(vita: Vita, response: Response): (Code, Vita) {
    if response.errorCode == 0x0 then
      var p := Open(vita.sessionKey, response.data[..0x20]);
      if p[0x11..0x20] == vita.vitaPart[1..] then (Ok, vita.(cartPart := p[..0x10]))
      else (VerifySharedRandomInvalid, vita)
    else (Reported, vita)
  }

  function FinishVerify(vita: Vita, request: Request, response: Response): (Code, Vita) {
    var p := Open(vita.secondaryKey, response.data[..0x40]);
    if p[0x9..0x18] == request.data[0x1..0x10] then
      if p[0x18..0x38] == vita.cartRandom then (Status(response), vita)
      else (VerifyCartRandomInvalidCartRandom, vita)
    else (VerifyCartRandomChallengeInvalid, vita)
  }

  /** The signature that follows the first n bytes of a response is theirs. */
  predicate SignatureHolds(w: RoundKeys, response: Response, n: nat)
    requires n <= 0x40
  {
    Signature(w, ResponseHeader(response), response.data[..n]) == response.data[n..n + 0x10]
  }

  function FinishPacket18(vita: Vita, challenge: Block, response: Response): (Code, Vita) {
    hide SignatureHolds, Open;
    if response.errorCode != 0x0 then (Reported, vita)
    else if !SignatureHolds(vita.secondaryKey, response, 0x30) then (P18KeyInvalidCmac, vita)
    else
      var p := Open(vita.secondaryKey, response.data[..0x30]);
      if challenge[1..] == p[0x1..0x10] then (Ok, vita.(p18 := p[0x10..0x30])) else (P18KeyChallengeFail, vita)
  }

  function FinishPacket20(vita: Vita, request: Request, response: Response): (Code, Vita) {
    hide SignatureHolds, Open;
    if response.errorCode != 0x0 then (Reported, vita)
    else if !SignatureHolds(vita.secondaryKey, response, 0x40) then (P20KeyInvalidCmac, vita)
    else
      var p := Open(vita.secondaryKey, response.data[..0x40]);
      if request.data[0x1..0x10] == p[0x9..0x18] then (Ok, vita.(p20 := p[0x18..0x38])) else (P20KeyChallengeFail, vita)
  }

  /** The verdict on a response, and the state after it. */
  function Finish(step: Step, vita: Vita, request: Request, random: Block, response: Response): (Code, Vita) {
    match step
    case Start => (FinishStart(response), vita)
    case StatusLocked => FinishStatus(vita, response, GC_LOCKED, Unlocked)
    case GetSessionKey => FinishSessionKey(vita, response)
    case SharedRandom => FinishSharedRandom(vita, response)
    case SecondaryKey => (Status(response), vita)
    case StatusUnlocked => FinishStatus(vita, response, GC_UNLOCKED, Locked)
    case VerifySecondaryKey => FinishVerify(vita, request, response)
    case Packet18(kind) => FinishPacket18(vita, Or80(random), response)
    case Packet20 => FinishPacket20(vita, request, response)
  }

  // ----- runs -----

  /** Whoever is on the other side: any function of its own state and the request. */
  type Link<!C> = (C, Request) -> (C, Response)

  datatype Run<C> = Run(code: Code, vita: Vita, other: C, trace: seq<(Request, Response)>)

  /** One step: prepare, send, receive, finish. */
  function Exec<C>(step: Step, vita: Vita, other: C, link: Link<C>, random: Block): (r: Run<C>)
    ensures |r.trace| == 1
  {
    var (v, request) := Prepare(step, vita, random);
    var (o, response) := link(other, request);
    var (code, v') := Finish(step, v, request, random, response);
    Run(code, v', o, [(request, response)])
  }

  /** The steps in order, stopping at the first that fails; step i uses the random block i. */
  function Steps<C>(steps: seq<Step>, vita: Vita, other: C, link: Link<C>, randoms: seq<Block>): (r: Run<C>)
    requires |randoms| == |steps|
    decreases |steps|
  {
    if steps == [] then Run(Ok, vita, other, []) else
      var first := Exec(steps[0], vita, other, link, randoms[0]);
      if first.code != Ok then first else
        var rest := Steps(steps[1..], first.vita, first.other, link, randoms[1..]);
        rest.(trace := first.trace + rest.trace)
  }
}
