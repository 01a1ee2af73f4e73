/** The console of vita.c against an arbitrary other side: what it sends, and what it must have received before it
  * accepts anything. Everything is said in terms of the packets that crossed the link and the keys held at the end.
  */
module Soundness {
  import opened Bytes
  import opened Fips = Fips197
  import opened Cmd56
  import opened Cmd56Sm
  import opened VitaSpec

  function CommandOf(step: Step): bv8 {
    match step
    case Start => 0xC4
    case StatusLocked => 0xC2
    case GetSessionKey => 0xA1
    case SharedRandom => 0xA2
    case SecondaryKey => 0xA3
    case StatusUnlocked => 0xC2
    case VerifySecondaryKey => 0xA4
    case Packet18(_) => 0xB1
    case Packet20 => 0xC1
  }

  const COMMANDS: seq<bv8> := [0xC4, 0xC2, 0xA1, 0xA2, 0xA3, 0xC2, 0xA4, 0xB1, 0xB1, 0xC1]

  function Commands(trace: seq<(Request, Response)>): (c: seq<bv8>)
    ensures |c| == |trace|
  {
    seq(|trace|, i requires 0 <= i < |trace| => trace[i].0.command)
  }

  // ----- what a response must be -----

  function Key18(w: RoundKeys, response: Response): (k: Bytes32) {
    Open(w, response.data[..0x30])[0x10..0x30]
  }

  function Key20(w: RoundKeys, response: Response): (k: Bytes32) {
    Open(w, response.data[..0x40])[0x18..0x38]
  }

  /** Bytes 1 to 15 of the challenge that was sent, which is sealed, come back. */
  predicate Echoes18(w: RoundKeys, request: Request, response: Response) {
    Open(w, response.data[..0x30])[0x1..0x10] == Open(w, request.data[..0x20])[0x1..0x10]
  }

  /** Bytes 1 to 15 of the challenge that was sent, which is in the clear, come back. */
  predicate Echoes(w: RoundKeys, request: Request, response: Response) {
    Open(w, response.data[..0x40])[0x9..0x18] == request.data[0x1..0x10]
  }

  predicate EchoesShared(w: RoundKeys, request: Request, response: Response) {
    Open(w, response.data[..0x20])[0x11..0x20] == request.data[0x3..0x12]
  }

  predicate ReturnsCartRandom(w: RoundKeys, response: Response, cartRandom: Bytes32) {
    Open(w, response.data[..0x40])[0x18..0x38] == cartRandom
  }

  predicate CarriesSecondaryKey(v: Vita, request: Request) {
    v.secondaryKey == KeyExpansion(Open(v.sessionKey, request.data[..0x30])[..0x10])
  }

  predicate GivesSessionKey(v: Vita, response: Response) {
    && v.keyId == Swap16(Value16(response.data[2], response.data[3]))
    && v.cartRandom == response.data[0x8..0x28]
    && !(v.allowPrototypeKeys && v.keyId > PROTOTYPE_KEY_ID1)
    && SessionKey(v.cartRandom, v.keyId).Some?
    && v.sessionKey == KeyExpansion(SessionKey(v.cartRandom, v.keyId).value)
  }

  /** The demand of each step on the packets that crossed the link, given the console's keys. */
  predicate Genuine(step: Step, v: Vita, request: Request, response: Response) {
    && response.errorCode == 0
    && match step
       case Start => response.data[0] == 0 && response.data[1] == 0
       case StatusLocked => Value16(response.data[0], response.data[1]) == GC_LOCKED
       case GetSessionKey => GivesSessionKey(v, response)
       case SharedRandom => EchoesShared(v.sessionKey, request, response)
       case SecondaryKey => CarriesSecondaryKey(v, request)
       case StatusUnlocked => Value16(response.data[0], response.data[1]) == GC_UNLOCKED
       case VerifySecondaryKey =>
         Echoes(v.secondaryKey, request, response) && ReturnsCartRandom(v.secondaryKey, response, v.cartRandom)
       case Packet18(_) => SignatureHolds(v.secondaryKey, response, 0x30) && Echoes18(v.secondaryKey, request, response)
       case Packet20 => SignatureHolds(v.secondaryKey, response, 0x40) && Echoes(v.secondaryKey, request, response)
  }

  // ----- one step -----

  lemma SecondaryKeySent(v: Vita, random: Block)
    ensures var (v', request) := Prepare(SecondaryKey, v, random); CarriesSecondaryKey(v', request)
  {
    hide Seal, Open, Or80, KeyExpansion, RequestPayload;
    var p := random + Or80(v.vitaPart) + Or80(v.cartPart);
    var c := Seal(v.sessionKey, p);
    PayloadSlices(c, 0, 0x30);
    assert RequestPayload(c)[..0x30] == RequestPayload(c)[0..0x30] && c[0..0x30] == c;
    OpenSealed(v.sessionKey, p, 0x30);
    assert p[..0x10] == random;
  }

  lemma Packet18Sent(w: RoundKeys, challenge: Block, kind: bv8, request: Request)
    requires request == Packet18Request(w, challenge, kind)
    ensures Open(w, request.data[..0x20])[0x1..0x10] == challenge[1..]
  {
    hide Seal, Open, Signature, RequestHeader, RequestPayload;
    var start := RequestStart(CMD_GET_P18_KEY_AND_CMAC_SIGNATURE, 0x33, 0x43, 0x11);
    var plain := Packet18Plain(challenge, kind);
    var sealed := Seal(w, plain)[..0x20];
    var q := sealed + Signature(w, RequestHeader(start), sealed);
    PayloadSlices(q, 0, 0x20);
    assert RequestPayload(q)[..0x20] == RequestPayload(q)[0..0x20] && q[0..0x20] == sealed;
    OpenSealed(w, plain, 0x20);
    assert plain[..0x20][0x1..0x10] == challenge[1..];
  }

  lemma SharedRandomSent(v: Vita, random: Block)
    ensures Prepare(SharedRandom, v, random).1.data[0x3..0x12] == random[1..]
  {
    hide Bytes16, Swap16;
    var p := Bytes16(Swap16(v.keyId)) + random;
    PayloadSlices(p, 0x3, 0x12);
    assert p[0x3..0x12] == random[1..];
  }

  /** A step succeeds exactly when what crossed the link meets its demand. */
  lemma StepGenuine<C>(step: Step, vita: Vita, other: C, link: Link<C>, random: Block)
    ensures var e := Exec(step, vita, other, link, random);
      e.code == Ok <==> Genuine(step, e.vita, e.trace[0].0, e.trace[0].1)
  {
    hide Seal, Open, Or80, KeyExpansion, RequestPayload, SignatureHolds, SessionKey, Value16, Swap16, Bytes16,
      Packet18Request;
    match step
    case SharedRandom => SharedRandomSent(vita, random);
    case SecondaryKey => SecondaryKeySent(vita, random);
    case Packet18(kind) =>
      Packet18Sent(vita.secondaryKey, Or80(random), kind, Exec(step, vita, other, link, random).trace[0].0);
    case _ =>
  }

  /** What a step changes: the session key is only made by A1, the secondary key only by A3, the per-cart keys only by
    * the response of a B1 or C1 that is accepted.
    */
  lemma StepChanges<C>(step: Step, vita: Vita, other: C, link: Link<C>, random: Block)
    ensures var e := Exec(step, vita, other, link, random); var v, response := e.vita, e.trace[0].1;
      && e.trace[0].0.command == CommandOf(step)
      && v.allowPrototypeKeys == vita.allowPrototypeKeys
      && (!step.GetSessionKey? ==>
            v.sessionKey == vita.sessionKey && v.cartRandom == vita.cartRandom && v.keyId == vita.keyId)
      && (!step.SecondaryKey? ==> v.secondaryKey == vita.secondaryKey)
      && v.p18 == (if step.Packet18? && e.code == Ok then Key18(v.secondaryKey, response) else vita.p18)
      && v.p20 == (if step.Packet20? && e.code == Ok then Key20(v.secondaryKey, response) else vita.p20)
  {
    hide Seal, Open, Or80, KeyExpansion, RequestPayload, SignatureHolds, SessionKey, Value16, Swap16, Bytes16,
      Packet18Plain, Signature;
  }

  // ----- runs -----

  predicate UsesSession(step: Step) {
    step.GetSessionKey? || step.SharedRandom? || step.SecondaryKey? || step.VerifySecondaryKey?
  }

  predicate UsesSecondary(step: Step) {
    step.SecondaryKey? || step.VerifySecondaryKey? || step.Packet18? || step.Packet20?
  }

  /** No later step replaces a key that an earlier one is judged by. */
  ghost predicate Settled(steps: seq<Step>) {
    && (forall i, j :: 0 <= i < j < |steps| && UsesSession(steps[i]) ==> !steps[j].GetSessionKey?)
    && (forall i, j :: 0 <= i < j < |steps| && UsesSecondary(steps[i]) ==> !steps[j].SecondaryKey?)
  }

  ghost predicate AllGenuine(steps: seq<Step>, v: Vita, trace: seq<(Request, Response)>) {
    |trace| <= |steps| && forall i :: 0 <= i < |trace| ==> Genuine(steps[i], v, trace[i].0, trace[i].1)
  }

  lemma GenuineKeeps(step: Step, v: Vita, v': Vita, request: Request, response: Response)
    requires v'.allowPrototypeKeys == v.allowPrototypeKeys
    requires UsesSession(step) ==>
      v'.sessionKey == v.sessionKey && v'.cartRandom == v.cartRandom && v'.keyId == v.keyId
    requires UsesSecondary(step) ==> v'.secondaryKey == v.secondaryKey
    ensures Genuine(step, v, request, response) == Genuine(step, v', request, response)
  {
    hide SignatureHolds, Echoes, Echoes18, EchoesShared, Open, KeyExpansion, ReturnsCartRandom, SessionKey, Value16,
      Swap16;
  }

  lemma {:induction false} RunChanges<C>(steps: seq<Step>, vita: Vita, other: C, link: Link<C>, randoms: seq<Block>)
    requires |randoms| == |steps|
    ensures var r := Steps(steps, vita, other, link, randoms); var v := r.vita;
      && |r.trace| <= |steps| && (r.code == Ok ==> |r.trace| == |steps|)
      && (forall i :: 0 <= i < |r.trace| ==> r.trace[i].0.command == CommandOf(steps[i]))
      && v.allowPrototypeKeys == vita.allowPrototypeKeys
      && ((forall i :: 0 <= i < |steps| ==> !steps[i].GetSessionKey?) ==>
            v.sessionKey == vita.sessionKey && v.cartRandom == vita.cartRandom && v.keyId == vita.keyId)
      && ((forall i :: 0 <= i < |steps| ==> !steps[i].SecondaryKey?) ==> v.secondaryKey == vita.secondaryKey)
      && ((forall i :: 0 <= i < |steps| ==> !steps[i].Packet18?) ==> v.p18 == vita.p18)
      && ((forall i :: 0 <= i < |steps| ==> !steps[i].Packet20?) ==> v.p20 == vita.p20)
    decreases |steps|
  {
    hide Exec, Key18, Key20;
    if steps != [] {
      StepChanges(steps[0], vita, other, link, randoms[0]);
      var e := Exec(steps[0], vita, other, link, randoms[0]);
      if e.code == Ok {
        RunChanges(steps[1..], e.vita, e.other, link, randoms[1..]);
      }
    }
  }

  lemma AllGenuineCons(steps: seq<Step>, v: Vita, first: seq<(Request, Response)>, rest: seq<(Request, Response)>)
    requires |first| == 1 && steps != []
    ensures AllGenuine(steps, v, first + rest)
      <==> Genuine(steps[0], v, first[0].0, first[0].1) && AllGenuine(steps[1..], v, rest)
  {
    hide Genuine;
    var trace := first + rest;
    assert trace[0] == first[0] && trace[1..] == rest;
    forall i | 0 <= i < |rest| && |trace| <= |steps|
      ensures trace[i + 1] == rest[i] && steps[i + 1] == steps[1..][i]
    {
    }
    if AllGenuine(steps[1..], v, rest) && Genuine(steps[0], v, first[0].0, first[0].1) {
      forall i | 0 <= i < |trace| ensures Genuine(steps[i], v, trace[i].0, trace[i].1) {
        if i > 0 {
          assert trace[i - 1 + 1] == rest[i - 1] && steps[i - 1 + 1] == steps[1..][i - 1];
        }
      }
    }
  }

  lemma AllGenuineNone(steps: seq<Step>, v: Vita)
    ensures AllGenuine(steps, v, [])
  {
  }

  /** A run succeeds exactly when every step was executed and every response was genuine; until the last executed
    * step, all were.
    */
  lemma {:induction false} RunGenuine<C>(steps: seq<Step>, vita: Vita, other: C, link: Link<C>, randoms: seq<Block>)
    requires |randoms| == |steps| && Settled(steps)
    ensures var r := Steps(steps, vita, other, link, randoms);
      && (r.code == Ok <==> |r.trace| == |steps| && AllGenuine(steps, r.vita, r.trace))
      && (r.code != Ok ==> |r.trace| > 0 && AllGenuine(steps, r.vita, r.trace[..|r.trace| - 1]))
    decreases |steps|
  {
    hide Exec, Genuine, AllGenuine;
    if steps == [] {
      AllGenuineNone(steps, vita);
    } else {
      StepGenuine(steps[0], vita, other, link, randoms[0]);
      var e := Exec(steps[0], vita, other, link, randoms[0]);
      AllGenuineCons(steps, e.vita, e.trace, []);
      AllGenuineNone(steps, e.vita);
      AllGenuineNone(steps[1..], e.vita);
      assert e.trace + [] == e.trace && e.trace[..0] == [];
      if e.code == Ok {
        var rest := Steps(steps[1..], e.vita, e.other, link, randoms[1..]);
        RunChanges(steps[1..], e.vita, e.other, link, randoms[1..]);
        RunGenuine(steps[1..], e.vita, e.other, link, randoms[1..]);
        GenuineKeeps(steps[0], e.vita, rest.vita, e.trace[0].0, e.trace[0].1);
        AllGenuineCons(steps, rest.vita, e.trace, rest.trace);
        if rest.code != Ok {
          var done := rest.trace[..|rest.trace| - 1];
          AllGenuineCons(steps, rest.vita, e.trace, done);
          assert (e.trace + rest.trace)[..|e.trace + rest.trace| - 1] == e.trace + done;
        }
      }
    }
  }

  /** How many of the executed steps succeeded: all, or all but the last. */
  ghost function Accepted<C>(r: VitaSpec.Run<C>): (n: nat)
    requires r.code == Ok || |r.trace| > 0
  {
    if r.code == Ok then |r.trace| else |r.trace| - 1
  }

  // ----- the per-cart keys -----

  /** The two kinds of per-cart key: the steps that fetch it, where a response carries it, and where it is held. */
  datatype Kind = P18 | P20
  {
    predicate CarriedIn(step: Step) {
      match this
      case P18 => step.Packet18?
      case P20 => step.Packet20?
    }

    function In(w: RoundKeys, response: Response): Bytes32 {
      match this
      case P18 => Key18(w, response)
      case P20 => Key20(w, response)
    }

    function HeldBy(v: Vita): Bytes32 {
      match this
      case P18 => v.p18
      case P20 => v.p20
    }
  }

  /** The key in the last of the given responses that carries one, or else the key from before. */
  ghost function LastKey(kind: Kind, steps: seq<Step>, w: RoundKeys, trace: seq<(Request, Response)>, before: Bytes32)
    : Bytes32
    requires |trace| <= |steps|
    decreases |trace|
  {
    if trace == [] then before
    else
      LastKey(kind, steps[1..], w, trace[1..], if kind.CarriedIn(steps[0]) then kind.In(w, trace[0].1) else before)
  }

  lemma LastKeyCons(kind: Kind, steps: seq<Step>, w: RoundKeys, first: seq<(Request, Response)>,
                    rest: seq<(Request, Response)>, n: nat, before: Bytes32)
    requires |first| == 1 && n <= |rest| < |steps|
    ensures LastKey(kind, steps, w, (first + rest)[..1 + n], before)
      == LastKey(kind, steps[1..], w, rest[..n], if kind.CarriedIn(steps[0]) then kind.In(w, first[0].1) else before)
  {
    assert (first + rest)[..1 + n][1..] == rest[..n];
  }

  lemma LastKeyNone(kind: Kind, steps: seq<Step>, w: RoundKeys, trace: seq<(Request, Response)>, before: Bytes32)
    ensures LastKey(kind, steps, w, trace[..0], before) == before
  {
  }

  lemma KeyChanges<C>(kind: Kind, step: Step, vita: Vita, other: C, link: Link<C>, random: Block)
    ensures var e := Exec(step, vita, other, link, random);
      kind.HeldBy(e.vita) ==
        if kind.CarriedIn(step) && e.code == Ok then kind.In(e.vita.secondaryKey, e.trace[0].1) else kind.HeldBy(vita)
  {
    hide Exec, Key18, Key20;
    StepChanges(step, vita, other, link, random);
  }

  /** The per-cart keys are those of the last accepted responses that carry them, and otherwise untouched. */
  lemma {:induction false} RunKeys<C>(kind: Kind, steps: seq<Step>, vita: Vita, other: C, link: Link<C>,
                                      randoms: seq<Block>)
    requires |randoms| == |steps| && Settled(steps)
    ensures var r := Steps(steps, vita, other, link, randoms);
      && (r.code == Ok || |r.trace| > 0) && |r.trace| <= |steps|
      && kind.HeldBy(r.vita) == LastKey(kind, steps, r.vita.secondaryKey, r.trace[..Accepted(r)], kind.HeldBy(vita))
    decreases |steps|
  {
    hide Exec, LastKey, Kind.In, Kind.HeldBy, Kind.CarriedIn;
    if steps == [] {
      LastKeyNone(kind, steps, vita.secondaryKey, [], kind.HeldBy(vita));
    } else {
      KeyChanges(kind, steps[0], vita, other, link, randoms[0]);
      CarriersSettle(kind, steps);
      var e := Exec(steps[0], vita, other, link, randoms[0]);
      if e.code == Ok {
        var rest := Steps(steps[1..], e.vita, e.other, link, randoms[1..]);
        RunChanges(steps[1..], e.vita, e.other, link, randoms[1..]);
        RunKeys(kind, steps[1..], e.vita, e.other, link, randoms[1..]);
        LastKeyCons(kind, steps, rest.vita.secondaryKey, e.trace, rest.trace, Accepted(rest), kind.HeldBy(vita));
      } else {
        LastKeyNone(kind, steps, e.vita.secondaryKey, e.trace, kind.HeldBy(vita));
      }
    }
  }

  /** Behind a step that fetches a key, nothing makes a new secondary key. */
  lemma CarriersSettle(kind: Kind, steps: seq<Step>)
    requires Settled(steps) && steps != []
    ensures Settled(steps[1..])
    ensures kind.CarriedIn(steps[0]) ==> forall i :: 0 <= i < |steps[1..]| ==> !steps[1..][i].SecondaryKey?
  {
  }

  // ----- the ten steps -----

  lemma {:induction false} NoKeyYet(kind: Kind, steps: seq<Step>, w: RoundKeys, trace: seq<(Request, Response)>,
                                    k: nat, before: Bytes32)
    requires |trace| <= |steps| && k <= |steps|
    requires forall i :: 0 <= i < k ==> !steps[i].Packet18? && !steps[i].Packet20?
    ensures var n := if k <= |trace| then k else |trace|;
      LastKey(kind, steps, w, trace, before) == LastKey(kind, steps[n..], w, trace[n..], before)
    decreases k
  {
    hide Key18, Key20;
    if k > 0 && trace != [] {
      NoKeyYet(kind, steps[1..], w, trace[1..], k - 1, before);
      var n := if k <= |trace| then k else |trace|;
      assert steps[1..][n - 1..] == steps[n..] && trace[1..][n - 1..] == trace[n..];
    } else {
      assert steps[0..] == steps && trace[0..] == trace;
    }
  }

  lemma ScriptKeys(w: RoundKeys, trace: seq<(Request, Response)>, b18: Bytes32, b20: Bytes32)
    requires |trace| <= |SCRIPT|
    ensures LastKey(P18, SCRIPT, w, trace, b18) ==
      if |trace| >= 9 then Key18(w, trace[8].1) else if |trace| == 8 then Key18(w, trace[7].1) else b18
    ensures LastKey(P20, SCRIPT, w, trace, b20) == if |trace| == 10 then Key20(w, trace[9].1) else b20
  {
    hide Key18, Key20, LastKey;
    NoKeyYet(P18, SCRIPT, w, trace, 7, b18);
    NoKeyYet(P20, SCRIPT, w, trace, 7, b20);
    if |trace| >= 7 {
      LastThree(SCRIPT[7..], w, trace[7..], b18, b20);
    } else {
      LastKeyNone(P18, SCRIPT[|trace|..], w, trace[|trace|..], b18);
      LastKeyNone(P20, SCRIPT[|trace|..], w, trace[|trace|..], b20);
      assert trace[|trace|..] == trace[|trace|..][..0];
    }
  }

  lemma LastThree(steps: seq<Step>, w: RoundKeys, trace: seq<(Request, Response)>, b18: Bytes32, b20: Bytes32)
    requires steps == [Packet18(0x2), Packet18(0x3), Packet20] && |trace| <= 3
    ensures LastKey(P18, steps, w, trace, b18) ==
      if |trace| >= 2 then Key18(w, trace[1].1) else if |trace| == 1 then Key18(w, trace[0].1) else b18
    ensures LastKey(P20, steps, w, trace, b20) == if |trace| == 3 then Key20(w, trace[2].1) else b20
  {
    hide Key18, Key20;
    if |trace| >= 1 {
      var k1 := Key18(w, trace[0].1);
      assert steps[1..] == [Packet18(0x3), Packet20];
      assert LastKey(P18, steps, w, trace, b18) == LastKey(P18, steps[1..], w, trace[1..], k1);
      assert LastKey(P20, steps, w, trace, b20) == LastKey(P20, steps[1..], w, trace[1..], b20);
      if |trace| >= 2 {
        var k2 := Key18(w, trace[1].1);
        assert steps[1..][1..] == [Packet20] && trace[1..][1..] == trace[2..];
        assert LastKey(P18, steps[1..], w, trace[1..], k1) == LastKey(P18, [Packet20], w, trace[2..], k2);
        assert LastKey(P20, steps[1..], w, trace[1..], b20) == LastKey(P20, [Packet20], w, trace[2..], b20);
        if |trace| == 3 {
          assert trace[2..][1..] == [] && [Packet20][1..] == [];
          assert LastKey(P18, [Packet20], w, trace[2..], k2) == LastKey(P18, [], w, [], k2);
          assert LastKey(P20, [Packet20], w, trace[2..], b20) == LastKey(P20, [], w, [], Key20(w, trace[2].1));
        }
      }
    }
  }

  lemma ScriptSettled()
    ensures Settled(SCRIPT)
    ensures |COMMANDS| == |SCRIPT| && forall i :: 0 <= i < |SCRIPT| ==> CommandOf(SCRIPT[i]) == COMMANDS[i]
  {
  }

  /** Whatever the other side answers, and whatever the random number generator delivers: the commands sent are a
    * prefix of the ten; the run succeeds exactly when all ten responses were genuine; and the per-cart keys held at
    * the end are those of the last genuine responses that carry them, or as before if there were none.
    */
  lemma ConsoleSoundness<C>(vita: Vita, other: C, link: Link<C>, randoms: seq<Block>, r: VitaSpec.Run<C>)
    requires |randoms| == |SCRIPT| && r == Steps(SCRIPT, vita, other, link, randoms)
    ensures Commands(r.trace) <= COMMANDS
    ensures r.code == Ok <==> |r.trace| == |SCRIPT| && AllGenuine(SCRIPT, r.vita, r.trace)
    ensures r.code == Ok || (|r.trace| > 0 && AllGenuine(SCRIPT, r.vita, r.trace[..|r.trace| - 1]))
    ensures r.vita.p18 ==
      if Accepted(r) >= 9 then Key18(r.vita.secondaryKey, r.trace[8].1)
      else if Accepted(r) == 8 then Key18(r.vita.secondaryKey, r.trace[7].1)
      else vita.p18
    ensures r.vita.p20 == if r.code == Ok then Key20(r.vita.secondaryKey, r.trace[9].1) else vita.p20
  {
    hide Exec, Genuine, Key18, Key20, Steps, LastKey;
    ScriptSettled();
    RunChanges(SCRIPT, vita, other, link, randoms);
    RunGenuine(SCRIPT, vita, other, link, randoms);
    RunKeys(P18, SCRIPT, vita, other, link, randoms);
    RunKeys(P20, SCRIPT, vita, other, link, randoms);
    ScriptKeys(r.vita.secondaryKey, r.trace[..Accepted(r)], vita.p18, vita.p20);
  }
}
