/** What the console sends and how it judges what comes back, said in terms of the packets alone: the fields of every
  * request, where each random block goes, and which return code follows from which response. The other side is
  * arbitrary throughout.
  */
module ConsolePackets {
  import opened Bytes
  import opened Fips = Fips197
  import Cmac
  import Cbc
  import opened Cmd56
  import opened Cmd56Sm
  import opened PacketFields
  import opened VitaSpec
  import opened Soundness

  // ----- requests -----

  /** A request of the given command, sizes and expected response code. */
  predicate Form(r: Request, command: bv8, additionalDataSize: nat, expectedSize: nat, expectedCode: nat) {
    && r.magic == CMD56_MAGIC && r.command == command && r.requestSize == r.additionalDataSize == additionalDataSize
    && r.expectedResponseSize == expectedSize && r.expectedResponseCode == expectedCode
  }

  /** The data area holds p and is zero behind it. */
  predicate Holds(data: RequestData, p: bytes) {
    |p| <= 0x1d1 && data == p + Zeros(0x1d1 - |p|)
  }

  predicate NamesKeyId(data: RequestData, keyId: bv16, random: Block) {
    HighByteFirst(data[0], data[1]) == keyId && data[2..0x12] == random && data[0x12..] == Zeros(0x1bf)
  }

  predicate SendsSecondaryKey(v: Vita, data: RequestData, random: Block) {
    && Opened(v.sessionKey, data[..0x30]) == random + v.vitaPart + v.cartPart
    && data[0x30..] == Zeros(0x1a1)
    && v.secondaryKey == KeyExpansion(random)
  }

  predicate SendsChallenge18(w: RoundKeys, request: Request, challenge: Block, kind: bv8) {
    && Opened(w, request.data[..0x20]) == challenge + Zeros(0xF) + [kind]
    && request.data[0x20..0x30] == Cmac.Mac(w, SignedByB1(request))
    && request.data[0x30..] == Zeros(0x1a1)
  }

  /** What a step sends, given the console's keys and the random block it drew. */
  predicate Sent(step: Step, v: Vita, random: Block, r: Request) {
    match step
    case Start => Form(r, 0xC4, 0x3, 0x13, 0x31) && Holds(r.data, [])
    case StatusLocked => Form(r, 0xC2, 0x3, 0x5, 0x23) && Holds(r.data, [])
    case GetSessionKey => Form(r, 0xA1, 0x3, 0x2B, 0x2) && Holds(r.data, [])
    case SharedRandom => Form(r, 0xA2, 0x15, 0x23, 0x3) && NamesKeyId(r.data, v.keyId, random)
    case SecondaryKey => Form(r, 0xA3, 0x33, 0x3, 0x5) && SendsSecondaryKey(v, r.data, random)
    case StatusUnlocked => Form(r, 0xC2, 0x3, 0x5, 0x23) && Holds(r.data, [])
    case VerifySecondaryKey => Form(r, 0xA4, 0x13, 0x43, 0x7) && Holds(r.data, TopSet(random))
    case Packet18(kind) => Form(r, 0xB1, 0x33, 0x43, 0x11) && SendsChallenge18(v.secondaryKey, r, TopSet(random), kind)
    case Packet20 => Form(r, 0xC1, 0x13, 0x53, 0x19) && Holds(r.data, TopSet(random))
  }

  lemma PayloadHolds(p: bytes)
    requires |p| <= 0x1d1
    ensures Holds(RequestPayload(p), p)
  {
  }

  lemma KeyIdSent(keyId: bv16, random: Block)
    ensures NamesKeyId(RequestPayload(Bytes16(Swap16(keyId)) + random), keyId, random)
  {
    hide Bytes16, Swap16, HighByteFirst, Value16;
    var p := Bytes16(Swap16(keyId)) + random;
    PayloadHolds(p);
    var d := RequestPayload(p);
    assert d[2..0x12] == random && d[0x12..] == Zeros(0x1bf);
    Field16(Swap16(keyId));
    Field16(keyId);
    HighByteFirstIs(d[0], d[1]);
  }

  lemma SecondaryKeySent(v: Vita, random: Block)
    ensures var (v', request) := Prepare(SecondaryKey, v, random);
      SendsSecondaryKey(v', request.data, random)
  {
    hide Cbc.Encrypt, Cbc.Decrypt, Or80, KeyExpansion;
    var p := random + Or80(v.vitaPart) + Or80(v.cartPart);
    var c := Seal(v.sessionKey, p);
    OpenSealed(v.sessionKey, p, 0x30);
    assert RequestPayload(c)[..0x30] == c && RequestPayload(c)[0x30..] == Zeros(0x1a1);
  }

  lemma Challenge18Sent(w: RoundKeys, challenge: Block, kind: bv8)
    ensures SendsChallenge18(w, Packet18Request(w, challenge, kind), challenge, kind)
  {
    hide Cbc.Encrypt, Cbc.Decrypt, Cmac.Mac, LowByte;
    var start := RequestStart(CMD_GET_P18_KEY_AND_CMAC_SIGNATURE, 0x33, 0x43, 0x11);
    var plain := Packet18Plain(challenge, kind);
    var c := Seal(w, plain)[..0x20];
    var t := Signature(w, RequestHeader(start), c);
    var r := Packet18Request(w, challenge, kind);
    assert r.data == c + t + Zeros(0x1a1);
    assert r.data[..0x20] == c && r.data[0x20..0x30] == t && r.data[0x30..] == Zeros(0x1a1);
    OpenSealed(w, plain, 0x20);
    assert plain[..0x20] == challenge + Zeros(0xF) + [kind];
    assert SignedByB1(r) == SignedMessage(RequestHeader(start), c);
  }

  /** Every step sends what it should. */
  lemma StepSends<C>(step: Step, vita: Vita, other: C, link: Link<C>, random: Block)
    ensures var e := Exec(step, vita, other, link, random);
      Sent(step, e.vita, random, e.trace[0].0)
  {
    hide Open, Seal, Or80, TopSet, KeyExpansion, SessionKey, Value16, Swap16, SignatureHolds, Signature,
      NamesKeyId, SendsSecondaryKey, SendsChallenge18, RequestPayload, Bytes16, Packet18Plain;
    Or80Is(random);
    match step
    case SharedRandom => KeyIdSent(vita.keyId, random);
    case SecondaryKey => SecondaryKeySent(vita, random);
    case Packet18(kind) => Challenge18Sent(vita.secondaryKey, Or80(random), kind);
    case VerifySecondaryKey => PayloadHolds(Or80(random));
    case Packet20 => PayloadHolds(Or80(random));
    case _ =>
  }

  /** Only A2 and A3 touch the halves of the shared random: A2 makes the console's half the block it drew and takes the
    * cart's from an accepted response, and A3 sets the top bits of both.
    */
  lemma StepHalves<C>(step: Step, vita: Vita, other: C, link: Link<C>, random: Block)
    ensures var e := Exec(step, vita, other, link, random);
      && e.vita.vitaPart == (if step.SharedRandom? then random
                             else if step.SecondaryKey? then TopSet(vita.vitaPart)
                             else vita.vitaPart)
      && e.vita.cartPart == (if step.SharedRandom? && e.code == Ok then
                               Opened(vita.sessionKey, e.trace[0].1.data[..0x20])[..0x10]
                             else if step.SecondaryKey? then TopSet(vita.cartPart)
                             else vita.cartPart)
  {
    hide Cbc.Decrypt, Seal, Or80, TopSet, KeyExpansion, SessionKey, Value16, Swap16, SignatureHolds, Signature,
      RequestPayload, Bytes16, Packet18Plain;
    Or80Is(vita.vitaPart);
    Or80Is(vita.cartPart);
  }

  // ----- verdicts -----

  function KeyIdVerdict(v: Vita, d: ResponseData): Code {
    var id := HighByteFirst(d[2], d[3]);
    if (v.allowPrototypeKeys && id > 0x8001) || id !in [0x1, 0x8001, 0x8002, 0x8003] then InvalidKeyId else Ok
  }

  function SharedVerdict(w: RoundKeys, request: Request, d: ResponseData): Code {
    if Opened(w, d[..0x20])[0x11..0x20] != request.data[0x3..0x12] then VerifySharedRandomInvalid else Ok
  }

  function VerifyVerdict(v: Vita, request: Request, d: ResponseData): Code {
    var p := Opened(v.secondaryKey, d[..0x40]);
    if p[0x9..0x18] != request.data[0x1..0x10] then VerifyCartRandomChallengeInvalid
    else if p[0x18..0x38] != v.cartRandom then VerifyCartRandomInvalidCartRandom
    else Ok
  }

  /** The block behind the first n bytes is the MAC of the packet. */
  predicate CarriesMac(w: RoundKeys, response: Response, n: nat)
    requires n <= 0x40
  {
    Cmac.Mac(w, SignedByAnswer(response, n)) == response.data[n..n + 0x10]
  }

  predicate SameChallenge(w: RoundKeys, request: Request, response: Response) {
    Opened(w, response.data[..0x30])[0x1..0x10] == Opened(w, request.data[..0x20])[0x1..0x10]
  }

  function Packet18Verdict(w: RoundKeys, request: Request, response: Response): Code {
    if !CarriesMac(w, response, 0x30) then P18KeyInvalidCmac
    else if !SameChallenge(w, request, response) then P18KeyChallengeFail
    else Ok
  }

  function Packet20Verdict(w: RoundKeys, request: Request, response: Response): Code {
    if !CarriesMac(w, response, 0x40) then P20KeyInvalidCmac
    else if Opened(w, response.data[..0x40])[0x9..0x18] != request.data[0x1..0x10] then P20KeyChallengeFail
    else Ok
  }

  /** The first code unless it is Ok. */
  function Then(first: Code, second: Code): Code {
    if first != Ok then first else second
  }

  /** Why a response is refused, if it is: the tests in the order in which the console makes them. The error code comes
    * last at START, A1 and A4, and first everywhere else.
    */
  function Verdict(step: Step, v: Vita, request: Request, response: Response): Code {
    var d := response.data;
    var reported := if response.errorCode != 0 then Reported else Ok;
    match step
    case Start => Then(if d[..2] != [0x00, 0x00] then StartFail else Ok, reported)
    case StatusLocked => Then(reported, if d[..2] != [0xFF, 0x00] then Unlocked else Ok)
    case GetSessionKey => Then(KeyIdVerdict(v, d), reported)
    case SharedRandom => Then(reported, SharedVerdict(v.sessionKey, request, d))
    case SecondaryKey => reported
    case StatusUnlocked => Then(reported, if d[..2] != [0x00, 0x00] then Locked else Ok)
    case VerifySecondaryKey => Then(VerifyVerdict(v, request, d), reported)
    case Packet18(_) => Then(reported, Packet18Verdict(v.secondaryKey, request, response))
    case Packet20 => Then(reported, Packet20Verdict(v.secondaryKey, request, response))
  }

  lemma SignatureIs(w: RoundKeys, response: Response, n: nat)
    requires n <= 0x40
    ensures SignatureHolds(w, response, n) == CarriesMac(w, response, n)
  {
    hide Cmac.Mac, LowByte;
    assert SignedByAnswer(response, n) == SignedMessage(ResponseHeader(response), response.data[..n]);
  }

  /** The two bytes of the lock status, and the key id. */
  lemma StatusIs(a: bv8, b: bv8)
    ensures Value16(a, b) == GC_LOCKED <==> [a, b] == [0xFF, 0x00]
    ensures Value16(a, b) == GC_UNLOCKED <==> [a, b] == [0x00, 0x00]
  {
  }

  lemma OpeningVerdict<C>(step: Step, vita: Vita, other: C, link: Link<C>, random: Block)
    requires step.Start? || step.StatusLocked? || step.GetSessionKey? || step.SecondaryKey? || step.StatusUnlocked?
    ensures var e := Exec(step, vita, other, link, random);
      e.code == Verdict(step, e.vita, e.trace[0].0, e.trace[0].1)
  {
    hide Seal, Or80, KeyExpansion, SessionKey, Value16, Swap16, HighByteFirst, RequestPayload;
    var e := Exec(step, vita, other, link, random);
    var d := e.trace[0].1.data;
    StatusIs(d[0], d[1]);
    HighByteFirstIs(d[2], d[3]);
    KnownKeyIds(e.vita.cartRandom, e.vita.keyId);
  }

  lemma EchoVerdict<C>(step: Step, vita: Vita, other: C, link: Link<C>, random: Block)
    requires step.SharedRandom? || step.VerifySecondaryKey?
    ensures var e := Exec(step, vita, other, link, random);
      e.code == Verdict(step, e.vita, e.trace[0].0, e.trace[0].1)
  {
    hide Cbc.Decrypt, Or80, RequestPayload, Bytes16, Swap16;
    SharedRandomSent(vita, random);
  }

  lemma PacketVerdict<C>(step: Step, vita: Vita, other: C, link: Link<C>, random: Block)
    requires step.Packet18? || step.Packet20?
    ensures var e := Exec(step, vita, other, link, random);
      e.code == Verdict(step, e.vita, e.trace[0].0, e.trace[0].1)
  {
    hide Cbc.Decrypt, Or80, SignatureHolds, CarriesMac, RequestPayload, Packet18Request;
    var e := Exec(step, vita, other, link, random);
    match step
    case Packet18(kind) =>
      Packet18Sent(vita.secondaryKey, Or80(random), kind, e.trace[0].0);
      SignatureIs(vita.secondaryKey, e.trace[0].1, 0x30);
    case Packet20 => SignatureIs(vita.secondaryKey, e.trace[0].1, 0x40);
  }

  /** The return code of a step is the verdict on the response. */
  lemma StepVerdict<C>(step: Step, vita: Vita, other: C, link: Link<C>, random: Block)
    ensures var e := Exec(step, vita, other, link, random);
      e.code == Verdict(step, e.vita, e.trace[0].0, e.trace[0].1)
  {
    hide Exec, Verdict;
    match step
    case SharedRandom => EchoVerdict(step, vita, other, link, random);
    case VerifySecondaryKey => EchoVerdict(step, vita, other, link, random);
    case Packet18(_) => PacketVerdict(step, vita, other, link, random);
    case Packet20 => PacketVerdict(step, vita, other, link, random);
    case _ => OpeningVerdict(step, vita, other, link, random);
  }

  // ----- runs -----

  type Trace = seq<(Request, Response)>

  ghost predicate AllSent(steps: seq<Step>, v: Vita, randoms: seq<Block>, trace: Trace) {
    && |trace| <= |steps| && |trace| <= |randoms|
    && forall i :: 0 <= i < |trace| ==> Sent(steps[i], v, randoms[i], trace[i].0)
  }

  lemma AllSentCons(steps: seq<Step>, v: Vita, randoms: seq<Block>, first: Trace, rest: Trace)
    requires |first| == 1 && steps != [] && randoms != []
    requires Sent(steps[0], v, randoms[0], first[0].0) && AllSent(steps[1..], v, randoms[1..], rest)
    ensures AllSent(steps, v, randoms, first + rest)
  {
    hide Sent;
    var trace := first + rest;
    forall i | 0 <= i < |trace| ensures Sent(steps[i], v, randoms[i], trace[i].0) {
      if i > 0 {
        assert Sent(steps[1..][i - 1], v, randoms[1..][i - 1], rest[i - 1].0);
      }
    }
  }

  predicate TouchesHalves(step: Step) {
    step.SharedRandom? || step.SecondaryKey?
  }

  /** No later step replaces what an earlier one was sent with. */
  ghost predicate Lasting(steps: seq<Step>) {
    && Settled(steps)
    && forall i, j :: 0 <= i < j < |steps| && steps[i].SecondaryKey? ==> !TouchesHalves(steps[j])
  }

  lemma SentKeeps(step: Step, v: Vita, v': Vita, random: Block, r: Request)
    requires Sent(step, v, random, r)
    requires UsesSession(step) ==> v'.sessionKey == v.sessionKey && v'.keyId == v.keyId
    requires UsesSecondary(step) ==> v'.secondaryKey == v.secondaryKey
    requires step.SecondaryKey? ==> v'.vitaPart == v.vitaPart && v'.cartPart == v.cartPart
    ensures Sent(step, v', random, r)
  {
    hide Form, Holds, NamesKeyId, SendsChallenge18, TopSet, Opened, KeyExpansion;
  }

  lemma {:induction false} RunHalves<C>(steps: seq<Step>, vita: Vita, other: C, link: Link<C>, randoms: seq<Block>)
    requires |randoms| == |steps| && forall i :: 0 <= i < |steps| ==> !TouchesHalves(steps[i])
    ensures var v := Steps(steps, vita, other, link, randoms).vita;
      v.vitaPart == vita.vitaPart && v.cartPart == vita.cartPart
    decreases |steps|
  {
    hide Exec, TopSet, Opened;
    if steps != [] {
      StepHalves(steps[0], vita, other, link, randoms[0]);
      var e := Exec(steps[0], vita, other, link, randoms[0]);
      if e.code == Ok {
        RunHalves(steps[1..], e.vita, e.other, link, randoms[1..]);
      }
    }
  }

  /** Every request of a run, in terms of the keys the console holds at its end. */
  lemma {:induction false} RunSends<C>(steps: seq<Step>, vita: Vita, other: C, link: Link<C>, randoms: seq<Block>)
    requires |randoms| == |steps| && Lasting(steps)
    ensures var r := Steps(steps, vita, other, link, randoms); AllSent(steps, r.vita, randoms, r.trace)
    decreases |steps|
  {
    hide Exec, Sent, AllSent;
    if steps == [] {
      NothingSent(vita);
    } else {
      StepSends(steps[0], vita, other, link, randoms[0]);
      var e := Exec(steps[0], vita, other, link, randoms[0]);
      if e.code == Ok {
        var rest := Steps(steps[1..], e.vita, e.other, link, randoms[1..]);
        RunChanges(steps[1..], e.vita, e.other, link, randoms[1..]);
        if steps[0].SecondaryKey? {
          RunHalves(steps[1..], e.vita, e.other, link, randoms[1..]);
        }
        RunSends(steps[1..], e.vita, e.other, link, randoms[1..]);
        SentKeeps(steps[0], e.vita, rest.vita, randoms[0], e.trace[0].0);
        AllSentCons(steps, rest.vita, randoms, e.trace, rest.trace);
      } else {
        OneSent(steps, e.vita, randoms, e.trace);
      }
    }
  }

  lemma NothingSent(v: Vita)
    ensures AllSent([], v, [], [])
  {
  }

  lemma OneSent(steps: seq<Step>, v: Vita, randoms: seq<Block>, trace: Trace)
    requires |trace| == 1 && steps != [] && randoms != [] && Sent(steps[0], v, randoms[0], trace[0].0)
    ensures AllSent(steps, v, randoms, trace)
  {
    hide Sent;
  }

  /** The console's half is the block it drew and the cart's half is the one its answer opened to, both with their top
    * bits set.
    */
  predicate Halves(v: Vita, random: Block, response: Response) {
    && v.vitaPart == TopSet(random)
    && v.cartPart == TopSet(Opened(v.sessionKey, response.data[..0x20])[..0x10])
  }

  /** After an A2 followed by an A3 the console holds the halves of that A2. */
  lemma {:induction false} RunShares<C>(steps: seq<Step>, vita: Vita, other: C, link: Link<C>, randoms: seq<Block>,
                                        k: nat)
    requires |randoms| == |steps| && Lasting(steps) && k + 1 < |steps|
    requires steps[k] == SharedRandom && steps[k + 1] == SecondaryKey
    ensures var r := Steps(steps, vita, other, link, randoms);
      |r.trace| > k + 1 ==> Halves(r.vita, randoms[k], r.trace[k].1)
    decreases k
  {
    hide Exec, Opened, TopSet;
    StepHalves(steps[0], vita, other, link, randoms[0]);
    StepChanges(steps[0], vita, other, link, randoms[0]);
    var e := Exec(steps[0], vita, other, link, randoms[0]);
    if e.code == Ok {
      if k > 0 {
        RunShares(steps[1..], e.vita, e.other, link, randoms[1..], k - 1);
      } else {
        StepHalves(steps[1], e.vita, e.other, link, randoms[1]);
        StepChanges(steps[1], e.vita, e.other, link, randoms[1]);
        var f := Exec(steps[1], e.vita, e.other, link, randoms[1]);
        assert steps[1..][1..] == steps[2..] && randoms[1..][1..] == randoms[2..];
        if f.code == Ok {
          RunHalves(steps[2..], f.vita, f.other, link, randoms[2..]);
          RunChanges(steps[2..], f.vita, f.other, link, randoms[2..]);
        }
      }
    }
  }

  /** The return code of a run is the verdict on the last response. */
  lemma {:induction false} RunVerdict<C>(steps: seq<Step>, vita: Vita, other: C, link: Link<C>, randoms: seq<Block>)
    requires |randoms| == |steps| && steps != []
    ensures var r := Steps(steps, vita, other, link, randoms); var n := |r.trace|;
      0 < n <= |steps| && r.code == Verdict(steps[n - 1], r.vita, r.trace[n - 1].0, r.trace[n - 1].1)
    decreases |steps|
  {
    hide Exec, Verdict;
    StepVerdict(steps[0], vita, other, link, randoms[0]);
    var e := Exec(steps[0], vita, other, link, randoms[0]);
    if e.code == Ok && |steps| > 1 {
      RunVerdict(steps[1..], e.vita, e.other, link, randoms[1..]);
    }
  }

  lemma ScriptLasts()
    ensures Lasting(SCRIPT)
  {
    ScriptSettled();
  }

  function Judged(v: Vita, trace: Trace): Code
    requires 0 < |trace| <= |SCRIPT|
  {
    var n := |trace| - 1;
    Verdict(SCRIPT[n], v, trace[n].0, trace[n].1)
  }

  /** Whatever the other side answers: every request of the run is the one the protocol asks for, in terms of the random
    * blocks and of what the console holds at the end, and the return code is the verdict on the last response.
    */
  lemma ConsoleSends<C>(vita: Vita, other: C, link: Link<C>, randoms: seq<Block>, r: VitaSpec.Run<C>)
    requires |randoms| == |SCRIPT| && r == Steps(SCRIPT, vita, other, link, randoms)
    ensures |r.trace| > 0 && AllSent(SCRIPT, r.vita, randoms, r.trace)
    ensures r.code == Judged(r.vita, r.trace)
    ensures |r.trace| > 4 ==> Halves(r.vita, randoms[3], r.trace[3].1)
  {
    hide Steps, Sent, Halves, Verdict;
    ScriptLasts();
    RunSends(SCRIPT, vita, other, link, randoms);
    RunShares(SCRIPT, vita, other, link, randoms, 3);
    RunVerdict(SCRIPT, vita, other, link, randoms);
  }

  predicate InTheClear(r: Request, random: Block) {
    r.data[..0x10] == TopSet(random)
  }

  predicate UnderKey(w: RoundKeys, r: Request, random: Block) {
    Opened(w, r.data[..0x20])[..0x10] == TopSet(random)
  }

  /** The challenges of A4, of the two B1 and of C1 are four blocks drawn one after the other, with their top bits set:
    * the first and the last in the clear, the others as they open under the secondary key.
    */
  lemma Challenges<C>(vita: Vita, other: C, link: Link<C>, randoms: seq<Block>, r: VitaSpec.Run<C>)
    requires |randoms| == |SCRIPT| && r == Steps(SCRIPT, vita, other, link, randoms)
    ensures |r.trace| > 6 ==> InTheClear(r.trace[6].0, randoms[6])
    ensures |r.trace| > 7 ==> UnderKey(r.vita.secondaryKey, r.trace[7].0, randoms[7])
    ensures |r.trace| > 8 ==> UnderKey(r.vita.secondaryKey, r.trace[8].0, randoms[8])
    ensures |r.trace| > 9 ==> InTheClear(r.trace[9].0, randoms[9])
  {
    hide Steps, InTheClear, UnderKey, Form, Sent;
    ConsoleSends(vita, other, link, randoms, r);
    if |r.trace| > 6 {
      ClearChallenge(VerifySecondaryKey, r.vita, randoms[6], r.trace[6].0);
    }
    if |r.trace| > 7 {
      SealedChallenge(0x2, r.vita, randoms[7], r.trace[7].0);
    }
    if |r.trace| > 8 {
      SealedChallenge(0x3, r.vita, randoms[8], r.trace[8].0);
    }
    if |r.trace| > 9 {
      ClearChallenge(Packet20, r.vita, randoms[9], r.trace[9].0);
    }
  }

  lemma ClearChallenge(step: Step, v: Vita, random: Block, r: Request)
    requires (step.VerifySecondaryKey? || step.Packet20?) && Sent(step, v, random, r)
    ensures InTheClear(r, random)
  {
    hide TopSet, Form;
  }

  lemma SealedChallenge(kind: bv8, v: Vita, random: Block, r: Request)
    requires Sent(Packet18(kind), v, random, r)
    ensures UnderKey(v.secondaryKey, r, random)
  {
    hide TopSet, Form, Opened, SignedByB1, Cmac.Mac;
  }
}
