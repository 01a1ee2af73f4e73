/** The console side of CMD56 as vita.c has it: a state whose fields the steps update, request and response buffers
  * that are encrypted and decrypted in place, and callbacks to send and receive.
  */
module Vita {
  import opened Bytes
  import opened Fips = Fips197
  import Aes
  import Rng
  import opened Cmd56
  import opened Cmd56Sm
  import opened PacketBuffers
  import opened VitaSpec

  /** The send and recv callbacks, with whoever is behind them: `step` is what the other side makes of a packet. */
  class Wire<!C> {
    const step: Link<C>
    var other: C
    var pending: Response

    constructor (step: Link<C>, other: C)
      ensures this.step == step && this.other == other
    {
      this.step, this.other := step, other;
      pending := Response(0, 0, 0, 0, Zeros(0x1f5));
    }

    method Send(request: Request)
      modifies this
      ensures (other, pending) == step(old(other), request)
    {
      var (o, r) := step(other, request);
      other, pending := o, r;
    }

    method Receive(response: ResponseBuffer)
      requires response.data.Length == 0x1f5
      modifies response, response.data
      ensures response.View() == pending
    {
      response.Receive(pending);
    }

    /** send_packet. */
    method SendPacket(request: RequestBuffer, response: ResponseBuffer)
      requires request.data.Length == 0x1d1 && response.data.Length == 0x1f5 && request.data != response.data
      modifies this, response, response.data
      ensures (other, response.View()) == step(old(other), old(request.View()))
    {
      Send(request.View());
      Receive(response);
    }
  }

  /** rand_bytes_or_w_80 for one block, or rand_bytes alone. */
  method RandomBlock(rng: Rng.RandState) returns (b: Block)
    requires rng.state.Length == 0x10
    modifies rng.state
    ensures b == Rng.Next(old(rng.state[..])) && rng.state[..] == Rng.Next(old(rng.state[..]))
  {
    hide Rng.Next, Rng.Stream, Splice;
    ghost var s: Block := rng.state[..];
    var buf := new bv8[0x10](_ => 0);
    WholeOutput(buf[..], Rng.Stream(s, 0x10));
    rng.RandBytes(buf, 0, 0x10);
    Rng.StreamOneBlock(s);
    OneBlockOn(s);
    b := buf[..];
  }

  lemma OneBlockOn(s: Block)
    ensures Rng.Nth(s, 1) == Rng.Next(s)
  {
    assert Rng.Nth(s, 0) == s;
  }

  /** The random block of each step, from state s of the generator on; a step that draws none is given one all the
    * same, which it does not use.
    */
  ghost function DrawsOf(steps: seq<Step>, s: Block): (d: seq<Block>)
    ensures |d| == |steps|
  {
    if steps == [] then [] else [Rng.Next(s)] + DrawsOf(steps[1..], StateAfter(steps[0], s))
  }

  ghost function StateAfter(step: Step, s: Block): Block {
    if step.SharedRandom? || step.SecondaryKey? || step.VerifySecondaryKey? || step.Packet18? || step.Packet20?
    then Rng.Next(s) else s
  }

  /** How many of the first i steps draw a block. */
  ghost function DrawnBefore(steps: seq<Step>, i: nat): nat
    requires i <= |steps|
  {
    if i == 0 then 0 else DrawnBefore(steps, i - 1) + Drawn(steps[i - 1])
  }

  ghost function Drawn(step: Step): nat {
    match step
    case Start => 0
    case StatusLocked => 0
    case GetSessionKey => 0
    case SharedRandom => 1
    case SecondaryKey => 1
    case StatusUnlocked => 0
    case VerifySecondaryKey => 1
    case Packet18(_) => 1
    case Packet20 => 1
  }

  lemma {:induction false} DrawnBehind(steps: seq<Step>, i: nat)
    requires 0 < i <= |steps|
    ensures DrawnBefore(steps, i) == Drawn(steps[0]) + DrawnBefore(steps[1..], i - 1)
  {
    hide Drawn;
    if i > 1 {
      DrawnBehind(steps, i - 1);
    }
  }

  lemma {:induction false} DrawIs(steps: seq<Step>, s: Block, i: nat)
    requires i < |steps|
    ensures DrawsOf(steps, s)[i] == Rng.Nth(s, 1 + DrawnBefore(steps, i))
    decreases i
  {
    hide Rng.Next;
    if i == 0 {
      OneBlockOn(s);
    } else {
      DrawIs(steps[1..], StateAfter(steps[0], s), i - 1);
      DrawnBehind(steps, i);
      OneBlockOn(s);
      Rng.NthOfNth(s, Drawn(steps[0]), 1 + DrawnBefore(steps[1..], i - 1));
    }
  }

  /** The six blocks that a run uses are the six that the generator delivers, in order. */
  lemma ScriptDraws(s: Block)
    ensures var d := DrawsOf(SCRIPT, s);
      && d[3] == Rng.Nth(s, 1) && d[4] == Rng.Nth(s, 2) && d[6] == Rng.Nth(s, 3)
      && d[7] == Rng.Nth(s, 4) && d[8] == Rng.Nth(s, 5) && d[9] == Rng.Nth(s, 6)
  {
    hide DrawsOf, Rng.Nth;
    ScriptCounts();
    DrawIs(SCRIPT, s, 3);
    DrawIs(SCRIPT, s, 4);
    DrawIs(SCRIPT, s, 6);
    DrawIs(SCRIPT, s, 7);
    DrawIs(SCRIPT, s, 8);
    DrawIs(SCRIPT, s, 9);
  }

  lemma ScriptCounts()
    ensures DrawnBefore(SCRIPT, 3) == 0 && DrawnBefore(SCRIPT, 4) == 1 && DrawnBefore(SCRIPT, 6) == 2
    ensures DrawnBefore(SCRIPT, 7) == 3 && DrawnBefore(SCRIPT, 8) == 4 && DrawnBefore(SCRIPT, 9) == 5
  {
    assert DrawnBefore(SCRIPT, 3) == 0;
    assert DrawnBefore(SCRIPT, 6) == 2;
  }

  /** From step i on, in this state, the run ends as r does. */
  ghost predicate Continues<C>(i: nat, r: VitaSpec.Run<C>, v: VitaSpec.Vita, c: C, link: Link<C>, s: Block)
    requires i <= |SCRIPT|
  {
    var q := Steps(SCRIPT[i..], v, c, link, DrawsOf(SCRIPT[i..], s));
    r.code == q.code && r.vita == q.vita && r.other == q.other
  }

  lemma ExecStart<C>(v: VitaSpec.Vita, c: C, link: Link<C>, random: Block)
    ensures var e := Exec(Step.Start, v, c, link, random);
      var (o, r) := link(c, VitaSpec.StartRequest());
      e.other == o && (e.code, e.vita) == (FinishStart(r), v)
  {
    hide FinishStart, FinishStatus, FinishSessionKey, FinishSharedRandom, FinishVerify, FinishPacket18, FinishPacket20,
      PrepareSharedRandom, PrepareSecondaryKey, Packet18Request, Packet20Request, VerifyRequest, Or80;
  }

  lemma ExecStatusLocked<C>(v: VitaSpec.Vita, c: C, link: Link<C>, random: Block)
    ensures var e := Exec(Step.StatusLocked, v, c, link, random);
      var (o, r) := link(c, StatusRequest());
      && e.other == o && e.vita == v.(lockStatus := Value16(r.data[0], r.data[1]))
      && e.code == if Status(r) != Ok then Status(r) else if e.vita.lockStatus != GC_LOCKED then Unlocked else Ok
  {
    hide Value16, FinishStart, FinishSessionKey, FinishSharedRandom, FinishVerify, FinishPacket18, FinishPacket20,
      PrepareSharedRandom, PrepareSecondaryKey, Packet18Request, Packet20Request, VerifyRequest, Or80;
  }

  lemma ExecGetSessionKey<C>(v: VitaSpec.Vita, c: C, link: Link<C>, random: Block)
    ensures var e := Exec(Step.GetSessionKey, v, c, link, random);
      var (o, r) := link(c, SessionKeyRequest());
      e.other == o && (e.code, e.vita) == FinishSessionKey(v, r)
  {
    hide FinishStart, FinishStatus, FinishSessionKey, FinishSharedRandom, FinishVerify, FinishPacket18, FinishPacket20,
      PrepareSharedRandom, PrepareSecondaryKey, Packet18Request, Packet20Request, VerifyRequest, Or80;
  }

  lemma ExecSharedRandom<C>(v: VitaSpec.Vita, c: C, link: Link<C>, random: Block)
    ensures var e := Exec(Step.SharedRandom, v, c, link, random);
      var (o, r) := link(c, PrepareSharedRandom(v, random).1);
      e.other == o && (e.code, e.vita) == FinishSharedRandom(PrepareSharedRandom(v, random).0, r)
  {
    hide FinishStart, FinishStatus, FinishSessionKey, FinishSharedRandom, FinishVerify, FinishPacket18, FinishPacket20,
      PrepareSharedRandom, PrepareSecondaryKey, Packet18Request, Packet20Request, VerifyRequest, Or80;
  }

  lemma ExecSecondaryKey<C>(v: VitaSpec.Vita, c: C, link: Link<C>, random: Block)
    ensures var e := Exec(Step.SecondaryKey, v, c, link, random);
      var (o, r) := link(c, PrepareSecondaryKey(v, random).1);
      e.other == o && (e.code, e.vita) == (Status(r), PrepareSecondaryKey(v, random).0)
  {
    hide FinishStart, FinishStatus, FinishSessionKey, FinishSharedRandom, FinishVerify, FinishPacket18, FinishPacket20,
      PrepareSharedRandom, PrepareSecondaryKey, Packet18Request, Packet20Request, VerifyRequest, Or80;
  }

  lemma ExecStatusUnlocked<C>(v: VitaSpec.Vita, c: C, link: Link<C>, random: Block)
    ensures var e := Exec(Step.StatusUnlocked, v, c, link, random);
      var (o, r) := link(c, StatusRequest());
      && e.other == o && e.vita == v.(lockStatus := Value16(r.data[0], r.data[1]))
      && e.code == if Status(r) != Ok then Status(r) else if e.vita.lockStatus != GC_UNLOCKED then Locked else Ok
  {
    hide Value16, FinishStart, FinishSessionKey, FinishSharedRandom, FinishVerify, FinishPacket18, FinishPacket20,
      PrepareSharedRandom, PrepareSecondaryKey, Packet18Request, Packet20Request, VerifyRequest, Or80;
  }

  lemma ExecVerifySecondaryKey<C>(v: VitaSpec.Vita, c: C, link: Link<C>, random: Block)
    ensures var e := Exec(Step.VerifySecondaryKey, v, c, link, random);
      var (o, r) := link(c, VerifyRequest(random));
      e.other == o && (e.code, e.vita) == FinishVerify(v, VerifyRequest(random), r)
  {
    hide FinishStart, FinishStatus, FinishSessionKey, FinishSharedRandom, FinishVerify, FinishPacket18, FinishPacket20,
      PrepareSharedRandom, PrepareSecondaryKey, Packet18Request, Packet20Request, VerifyRequest, Or80;
  }

  lemma ExecPacket18<C>(v: VitaSpec.Vita, c: C, link: Link<C>, random: Block, kind: bv8)
    ensures var e := Exec(Step.Packet18(kind), v, c, link, random);
      var (o, r) := link(c, Packet18Request(v.secondaryKey, Or80(random), kind));
      e.other == o && (e.code, e.vita) == FinishPacket18(v, Or80(random), r)
  {
    hide FinishStart, FinishStatus, FinishSessionKey, FinishSharedRandom, FinishVerify, FinishPacket18, FinishPacket20,
      PrepareSharedRandom, PrepareSecondaryKey, Packet18Request, Packet20Request, VerifyRequest, Or80;
  }

  lemma ExecPacket20<C>(v: VitaSpec.Vita, c: C, link: Link<C>, random: Block)
    ensures var e := Exec(Step.Packet20, v, c, link, random);
      var (o, r) := link(c, Packet20Request(random));
      e.other == o && (e.code, e.vita) == FinishPacket20(v, Packet20Request(random), r)
  {
    hide FinishStart, FinishStatus, FinishSessionKey, FinishSharedRandom, FinishVerify, FinishPacket18, FinishPacket20,
      PrepareSharedRandom, PrepareSecondaryKey, Packet18Request, Packet20Request, VerifyRequest, Or80;
  }

  lemma Begins<C>(r: VitaSpec.Run<C>, v: VitaSpec.Vita, c: C, link: Link<C>, s: Block)
    requires r == Steps(SCRIPT, v, c, link, DrawsOf(SCRIPT, s))
    ensures Continues(0, r, v, c, link, s)
  {
    hide Exec;
    assert SCRIPT[0..] == SCRIPT;
  }

  lemma Advance<C>(i: nat, r: VitaSpec.Run<C>, v: VitaSpec.Vita, c: C, link: Link<C>, s: Block,
                         code: Code, v': VitaSpec.Vita, c': C)
    requires i < |SCRIPT| && Continues(i, r, v, c, link, s)
    requires var e := Exec(SCRIPT[i], v, c, link, Rng.Next(s)); code == e.code && v' == e.vita && c' == e.other
    ensures code != Ok ==> r.code == code && r.vita == v' && r.other == c'
    ensures code == Ok ==> Continues(i + 1, r, v', c', link, StateAfter(SCRIPT[i], s))
  {
    hide Exec, Rng.Next;
    assert SCRIPT[i..][0] == SCRIPT[i] && SCRIPT[i..][1..] == SCRIPT[i + 1..];
    var d := DrawsOf(SCRIPT[i..], s);
    assert d[0] == Rng.Next(s) && d[1..] == DrawsOf(SCRIPT[i + 1..], StateAfter(SCRIPT[i], s));
  }

  lemma Ends<C>(r: VitaSpec.Run<C>, v: VitaSpec.Vita, c: C, link: Link<C>, s: Block)
    requires Continues(|SCRIPT|, r, v, c, link, s)
    ensures r.code == Ok && r.vita == v && r.other == c
  {
    hide Exec;
    assert SCRIPT[|SCRIPT|..] == [];
  }

  /** What is found in a buffer whose first bytes were opened in place. */
  lemma OpenedSlices(d: bytes, p: bytes, e: bytes)
    requires |p| <= |d| && e == Splice(d, 0, p)
    ensures |e| == |d|
    ensures |p| == 0x20 ==> e[0x11..0x20] == p[0x11..0x20] && e[..0x10] == p[..0x10]
    ensures |p| == 0x30 ==> e[0x1..0x10] == p[0x1..0x10] && e[0x10..0x30] == p[0x10..0x30]
    ensures |p| == 0x40 ==> e[0x9..0x18] == p[0x9..0x18] && e[0x18..0x38] == p[0x18..0x38]
  {
  }

  lemma PlainInPlace(expected: Block, kind: bv8, d: bytes)
    requires d == Splice(Splice(Zeros(0x1d1), 0, expected), 0x10, seq(0xF, _ => 0x00))[0x1f := kind]
    ensures d == RequestPayload(Packet18Plain(expected, kind))
    ensures d[..0x30] == Packet18Plain(expected, kind)
  {
    var p := Packet18Plain(expected, kind);
    forall m | 0 <= m < 0x1d1 ensures d[m] == if m < 0x30 then p[m] else 0 {
    }
    assert d == d[..0x30] + d[0x30..] && d[..0x30] == p;
    assert d[0x30..] == Zeros(0x1d1)[0x30..];
  }

  lemma SealedOverZeros(p: bytes, c: bytes)
    requires |p| == |c| <= 0x1d1
    ensures Splice(RequestPayload(p), 0, c) == RequestPayload(c)
  {
  }

  lemma SealedRequest(w: RoundKeys, a: bytes, b: bytes)
    requires (|a| + |b|) % 16 == 0 && |a| + |b| <= 0x1d1
    ensures var d := Splice(Splice(Zeros(0x1d1), 0, a), |a|, b);
      && d[..|a| + |b|] == a + b
      && Splice(d, 0, Seal(w, d[..|a| + |b|])) == RequestPayload(Seal(w, a + b))
  {
    hide Seal;
    var d := Splice(Splice(Zeros(0x1d1), 0, a), |a|, b);
    SpliceNext(Zeros(0x1d1), 0, a, b);
    assert d[..|a| + |b|] == a + b;
    var c := Seal(w, a + b);
    SpliceOver(Zeros(0x1d1), 0, a + b, c);
    assert c + (a + b)[|c|..] == c;
  }

  class VitaState {
    var lockStatus: bv16
    var allowPrototypeKeys: bool
    var keyId: bv16
    var packet20Key: Bytes32
    var packet18Key: Bytes32
    var cartRandom: Bytes32
    var vitaPart: Block
    var cartPart: Block
    var sessionKey: RoundKeys
    var secondaryKey: RoundKeys

    function View(): VitaSpec.Vita
      reads this
    {
      VitaSpec.Vita(lockStatus, allowPrototypeKeys, keyId, packet20Key, packet18Key, cartRandom, vitaPart, cartPart,
                    sessionKey, secondaryKey)
    }

    constructor ()
      ensures View() == Cleared()
    {
      lockStatus, allowPrototypeKeys, keyId, packet20Key, packet18Key := 0, false, 0, Zeros(0x20), Zeros(0x20);
      cartRandom, vitaPart, cartPart := Zeros(0x20), ZERO_BLOCK, ZERO_BLOCK;
      sessionKey, secondaryKey := Zeros(176), Zeros(176);
    }

    /** memset of the whole state, as vita_cmd56_init and k_clear_secret do it. */
    method Clear()
      modifies this
      ensures View() == Cleared()
    {
      lockStatus, allowPrototypeKeys, keyId, packet20Key, packet18Key := 0, false, 0, Zeros(0x20), Zeros(0x20);
      cartRandom, vitaPart, cartPart := Zeros(0x20), ZERO_BLOCK, ZERO_BLOCK;
      sessionKey, secondaryKey := Zeros(176), Zeros(176);
    }

    method StartRequest<C>(request: RequestBuffer, response: ResponseBuffer, link: Wire<C>, rng: Rng.RandState)
      returns (code: Code)
      requires Apart(request, response, rng)
      modifies this, request, request.data, response, response.data, link
      ensures var (v, q) := (old(View()), VitaSpec.StartRequest());
        var (o, r) := link.step(old(link.other), q);
        (code, View()) == (FinishStart(r), v) && link.other == o
      ensures rng.state[..] == old(rng.state[..])
    {
      request.Start(CMD_START, 0x3, 0x13, 0x31);
      link.SendPacket(request, response);
      if response.data[0] == 0x00 && response.data[1] == 0x00 {
        return Status(response.View());
      }
      return StartFail;
    }

    method GetStatus<C>(request: RequestBuffer, response: ResponseBuffer, link: Wire<C>, rng: Rng.RandState)
      returns (code: Code)
      requires Apart(request, response, rng)
      modifies this, request, request.data, response, response.data, link
      ensures var (o, r) := link.step(old(link.other), StatusRequest());
        && code == Status(r) && View() == old(View()).(lockStatus := Value16(r.data[0], r.data[1])) && link.other == o
      ensures rng.state[..] == old(rng.state[..])
    {
      hide Value16;
      request.Start(CMD_GET_STATUS, 0x3, 0x5, 0x23);
      link.SendPacket(request, response);
      lockStatus := Value16(response.data[0], response.data[1]);
      return Status(response.View());
    }

    method GetSessionKey<C>(request: RequestBuffer, response: ResponseBuffer, link: Wire<C>, rng: Rng.RandState)
      returns (code: Code)
      requires Apart(request, response, rng)
      modifies this, request, request.data, response, response.data, link
      ensures var (v, q) := (old(View()), SessionKeyRequest());
        var (o, r) := link.step(old(link.other), q);
        (code, View()) == FinishSessionKey(v, r) && link.other == o
      ensures rng.state[..] == old(rng.state[..])
    {
      hide FinishSessionKey, RequestStart;
      request.Start(CMD_GENERATE_SESSION_KEY, 0x3, 0x2B, 0x2);
      link.SendPacket(request, response);
      code := AcceptKeyId(response);
    }

    /** The part of get_session_key that follows the exchange. */
    method AcceptKeyId(response: ResponseBuffer) returns (code: Code)
      requires response.data.Length == 0x1f5
      modifies this
      ensures (code, View()) == FinishSessionKey(old(View()), response.View())
    {
      hide Value16, Swap16, SessionKey, KeyExpansion;
      keyId := Swap16(Value16(response.data[2], response.data[3]));
      cartRandom := response.data[0x8..0x28];
      if allowPrototypeKeys && keyId > PROTOTYPE_KEY_ID1 {
        return InvalidKeyId;
      }
      var derived := new bv8[0x10](_ => 0);
      var ok := DeriveSessionKey(derived, cartRandom, keyId);
      if !ok {
        return InvalidKeyId;
      }
      sessionKey := Aes.InitCtx(derived[..]);
      return Status(response.View());
    }

    method ExchangeSharedRandom<C>(request: RequestBuffer, response: ResponseBuffer, link: Wire<C>, rng: Rng.RandState)
      returns (code: Code)
      requires Apart(request, response, rng)
      modifies this, request, request.data, response, response.data, link, rng.state
      ensures var (v, q) := PrepareSharedRandom(old(View()), Rng.Next(old(rng.state[..])));
        var (o, r) := link.step(old(link.other), q);
        (code, View()) == FinishSharedRandom(v, r) && link.other == o
      ensures rng.state[..] == Rng.Next(old(rng.state[..]))
    {
      hide Splice, Open, Bytes16, Swap16, Rng.Next;
      request.Start(CMD_EXCHANGE_SHARED_RANDOM, 0x15, 0x23, 0x3);
      Copy(request.data, 0, Bytes16(Swap16(keyId)));
      var random := RandomBlock(rng);
      Copy(request.data, 2, random);
      vitaPart := random;
      SpliceNext(Zeros(0x1d1), 0, Bytes16(Swap16(keyId)), random);
      link.SendPacket(request, response);
      if response.errorCode == 0x0 {
        ghost var d := response.data[..];
        DecryptZeroIv(sessionKey, response.data, 0x20);
        OpenedSlices(d, Open(sessionKey, d[..0x20]), response.data[..]);
        if response.data[0x11..0x20] == vitaPart[1..] {
          cartPart := response.data[..0x10];
          return Ok;
        } else {
          return VerifySharedRandomInvalid;
        }
      }
      return Reported;
    }

    method GenerateSecondaryKeyAndVerifySession<C>(
        request: RequestBuffer, response: ResponseBuffer, link: Wire<C>, rng: Rng.RandState)
      returns (code: Code)
      requires Apart(request, response, rng)
      modifies this, request, request.data, response, response.data, link, rng.state
      ensures var (v, q) := PrepareSecondaryKey(old(View()), Rng.Next(old(rng.state[..])));
        var (o, r) := link.step(old(link.other), q);
        (code, View()) == (Status(r), v) && link.other == o
      ensures rng.state[..] == Rng.Next(old(rng.state[..]))
    {
      hide Splice, Seal, Or80, KeyExpansion, Rng.Next;
      request.Start(CMD_EXCHANGE_SECONDARY_KEY_AND_VERIFY_SESSION, 0x33, 0x3, 0x5);
      var random := RandomBlock(rng);
      Copy(request.data, 0, random);
      secondaryKey := Aes.InitCtx(random);
      vitaPart, cartPart := Or80(vitaPart), Or80(cartPart);
      Copy(request.data, 0x10, vitaPart + cartPart);
      SealedRequest(sessionKey, random, vitaPart + cartPart);
      assert random + (vitaPart + cartPart) == random + vitaPart + cartPart;
      EncryptZeroIv(sessionKey, request.data, 0x30);
      link.SendPacket(request, response);
      if response.errorCode != 0x0 {
        return Reported;
      } else {
        return Ok;
      }
    }

    method VerifySecondaryKey<C>(request: RequestBuffer, response: ResponseBuffer, link: Wire<C>, rng: Rng.RandState)
      returns (code: Code)
      requires Apart(request, response, rng)
      modifies this, request, request.data, response, response.data, link, rng.state
      ensures var (v, q) := (old(View()), VerifyRequest(Rng.Next(old(rng.state[..]))));
        var (o, r) := link.step(old(link.other), q);
        (code, View()) == FinishVerify(v, q, r) && link.other == o
      ensures rng.state[..] == Rng.Next(old(rng.state[..]))
    {
      hide Splice, Open, Or80, Rng.Next;
      request.Start(CMD_VERIFY_SECONDARY_KEY, 0x13, 0x43, 0x7);
      var random := RandomBlock(rng);
      Copy(request.data, 0, Or80(random));
      link.SendPacket(request, response);
      ghost var d := response.data[..];
      DecryptZeroIv(secondaryKey, response.data, 0x40);
      OpenedSlices(d, Open(secondaryKey, d[..0x40]), response.data[..]);
      if response.data[0x9..0x18] == request.data[0x1..0x10] {
        if response.data[0x18..0x38] == cartRandom {
          return Status(response.View());
        } else {
          return VerifyCartRandomInvalidCartRandom;
        }
      } else {
        return VerifyCartRandomChallengeInvalid;
      }
    }

    method GetPacket18Key<C>(
        request: RequestBuffer, response: ResponseBuffer, link: Wire<C>, rng: Rng.RandState, kind: bv8)
      returns (code: Code)
      requires Apart(request, response, rng)
      modifies this, request, request.data, response, response.data, link, rng.state
      ensures var (v, q) := (old(View()), Packet18Request(old(secondaryKey), Or80(Rng.Next(old(rng.state[..]))), kind));
        var (o, r) := link.step(old(link.other), q);
        (code, View()) == FinishPacket18(v, Or80(Rng.Next(old(rng.state[..]))), r) && link.other == o
      ensures rng.state[..] == Rng.Next(old(rng.state[..]))
    {
      hide Splice, Seal, Open, Or80, Rng.Next, Signature, RequestHeader, ResponseHeader;
      request.Start(CMD_GET_P18_KEY_AND_CMAC_SIGNATURE, 0x33, 0x43, 0x11);
      var random := RandomBlock(rng);
      var expected := Or80(random);
      PreparePacket18(request, expected, kind);
      link.SendPacket(request, response);
      if response.errorCode == 0x0 {
        var matches := CheckSignature(secondaryKey, response, 0x30);
        if matches {
          ghost var d := response.data[..];
          DecryptZeroIv(secondaryKey, response.data, 0x30);
          OpenedSlices(d, Open(secondaryKey, d[..0x30]), response.data[..]);
          if expected[1..] == response.data[0x1..0x10] {
            packet18Key := response.data[0x10..0x30];
            return Ok;
          } else {
            return P18KeyChallengeFail;
          }
        } else {
          return P18KeyInvalidCmac;
        }
      }
      return Reported;
    }

    method GetPacket20Key<C>(request: RequestBuffer, response: ResponseBuffer, link: Wire<C>, rng: Rng.RandState)
      returns (code: Code)
      requires Apart(request, response, rng)
      modifies this, request, request.data, response, response.data, link, rng.state
      ensures var (v, q) := (old(View()), Packet20Request(Rng.Next(old(rng.state[..]))));
        var (o, r) := link.step(old(link.other), q);
        (code, View()) == FinishPacket20(v, q, r) && link.other == o
      ensures rng.state[..] == Rng.Next(old(rng.state[..]))
    {
      hide Splice, Seal, Open, Or80, Rng.Next, Signature, ResponseHeader;
      request.Start(CMD_GET_P20_KEY_AND_CMAC_SIGNATURE, 0x13, 0x53, 0x19);
      var random := RandomBlock(rng);
      Copy(request.data, 0, Or80(random));
      link.SendPacket(request, response);
      if response.errorCode == 0x0 {
        var matches := CheckSignature(secondaryKey, response, 0x40);
        if matches {
          ghost var d := response.data[..];
          DecryptZeroIv(secondaryKey, response.data, 0x40);
          OpenedSlices(d, Open(secondaryKey, d[..0x40]), response.data[..]);
          if request.data[0x1..0x10] == response.data[0x9..0x18] {
            packet20Key := response.data[0x18..0x38];
            return Ok;
          } else {
            return P20KeyChallengeFail;
          }
        } else {
          return P20KeyInvalidCmac;
        }
      }
      return Reported;
    }

    /** The part of get_packet18_key that fills the request: encrypt all of it, then sign the first two blocks and put
      * the signature over the third.
      */
    method PreparePacket18(request: RequestBuffer, expected: Block, kind: bv8)
      requires request.data.Length == 0x1d1
      requires request.View() == RequestStart(CMD_GET_P18_KEY_AND_CMAC_SIGNATURE, 0x33, 0x43, 0x11)
      modifies request.data
      ensures request.View() == Packet18Request(secondaryKey, expected, kind)
    {
      hide Splice, Seal, Signature, CmacHash, RequestHeader;
      Copy(request.data, 0, expected);
      Fill(request.data, 0x10, 0xF, 0x00);
      request.data[0x1f] := kind;
      ghost var plain := Packet18Plain(expected, kind);
      PlainInPlace(expected, kind, request.data[..]);
      EncryptZeroIv(secondaryKey, request.data, 0x30);
      ghost var sealed := Seal(secondaryKey, plain);
      SealedOverZeros(plain, sealed);
      var header := RequestHeader(request.View());
      RequestHeaderOf(request.View(), RequestStart(CMD_GET_P18_KEY_AND_CMAC_SIGNATURE, 0x33, 0x43, 0x11));
      PayloadSlices(sealed, 0, 0x20);
      assert sealed[0..0x20] == sealed[..0x20];
      WholeSignature(secondaryKey, header, sealed[..0x20]);
      DoCmacHash(secondaryKey, request.data, 0, header, request.data, 0x20, 0x20);
      SpliceInside(Zeros(0x1d1), sealed, 0x20, Signature(secondaryKey, header, sealed[..0x20]));
      assert sealed[0x30..] == [];
      var q := sealed[..0x20] + Signature(secondaryKey, header, sealed[..0x20]);
      assert q + [] == q;
    }

    /** Generate the CMAC of the data and compare it with the one behind it. */
    method CheckSignature(w: RoundKeys, response: ResponseBuffer, n: nat) returns (matches: bool)
      requires response.data.Length == 0x1f5 && n <= 0x40 && n % 16 == 0
      ensures matches == SignatureHolds(w, response.View(), n)
    {
      hide Splice, Signature, CmacHash, ResponseHeader;
      var expectedCmac := new bv8[0x10](_ => 0);
      var header := ResponseHeader(response.View());
      ghost var d := response.data[..];
      assert d[0..n] == d[..n];
      WholeOutput(expectedCmac[..], Signature(w, header, d[..n]));
      WholeSignature(w, header, d[..n]);
      DoCmacHash(w, response.data, 0, header, expectedCmac, 0, n);
      matches := expectedCmac[..] == response.data[n..n + 0x10];
    }

    /** vita_cmd56_run, up to the session key. */
    method OpenSession<C>(
        request: RequestBuffer, response: ResponseBuffer, link: Wire<C>, rng: Rng.RandState, ghost r: VitaSpec.Run<C>)
      returns (code: Code)
      requires Apart(request, response, rng)
      requires Continues(0, r, View(), link.other, link.step, rng.state[..])
      modifies this, request, request.data, response, response.data, link, rng.state
      ensures code != Ok ==> r.code == code && r.vita == View() && r.other == link.other
      ensures code == Ok ==> Continues(3, r, View(), link.other, link.step, rng.state[..])
    {
      hide Steps, Exec, DrawsOf, FinishStart, FinishStatus, FinishSessionKey, FinishSharedRandom, FinishVerify,
        FinishPacket18, FinishPacket20, PrepareSharedRandom, PrepareSecondaryKey, Packet18Request, Packet20Request,
        VerifyRequest, VitaSpec.StartRequest, StatusRequest, SessionKeyRequest, Rng.Next, Or80, Value16, Continues;
      ghost var v, c, s: Block := View(), link.other, rng.state[..];
      ExecStart(v, c, link.step, Rng.Next(s));
      code := StartRequest(request, response, link, rng);
      Advance(0, r, v, c, link.step, s, code, View(), link.other);
      if code != Ok { return; }
      v, c, s := View(), link.other, rng.state[..];
      ExecStatusLocked(v, c, link.step, Rng.Next(s));
      code := GetStatus(request, response, link, rng);
      if code == Ok && lockStatus != GC_LOCKED { code := Unlocked; }
      Advance(1, r, v, c, link.step, s, code, View(), link.other);
      if code != Ok { return; }
      v, c, s := View(), link.other, rng.state[..];
      ExecGetSessionKey(v, c, link.step, Rng.Next(s));
      code := GetSessionKey(request, response, link, rng);
      Advance(2, r, v, c, link.step, s, code, View(), link.other);
    }

    /** vita_cmd56_run, from the shared random to the status of the unlocked cart. */
    method Unlock<C>(
        request: RequestBuffer, response: ResponseBuffer, link: Wire<C>, rng: Rng.RandState, ghost r: VitaSpec.Run<C>)
      returns (code: Code)
      requires Apart(request, response, rng)
      requires Continues(3, r, View(), link.other, link.step, rng.state[..])
      modifies this, request, request.data, response, response.data, link, rng.state
      ensures code != Ok ==> r.code == code && r.vita == View() && r.other == link.other
      ensures code == Ok ==> Continues(6, r, View(), link.other, link.step, rng.state[..])
    {
      hide Steps, Exec, DrawsOf, FinishStart, FinishStatus, FinishSessionKey, FinishSharedRandom, FinishVerify,
        FinishPacket18, FinishPacket20, PrepareSharedRandom, PrepareSecondaryKey, Packet18Request, Packet20Request,
        VerifyRequest, VitaSpec.StartRequest, StatusRequest, SessionKeyRequest, Rng.Next, Or80, Value16, Continues;
      ghost var v, c, s: Block := View(), link.other, rng.state[..];
      ExecSharedRandom(v, c, link.step, Rng.Next(s));
      code := ExchangeSharedRandom(request, response, link, rng);
      Advance(3, r, v, c, link.step, s, code, View(), link.other);
      if code != Ok { return; }
      v, c, s := View(), link.other, rng.state[..];
      ExecSecondaryKey(v, c, link.step, Rng.Next(s));
      code := GenerateSecondaryKeyAndVerifySession(request, response, link, rng);
      Advance(4, r, v, c, link.step, s, code, View(), link.other);
      if code != Ok { return; }
      v, c, s := View(), link.other, rng.state[..];
      ExecStatusUnlocked(v, c, link.step, Rng.Next(s));
      code := GetStatus(request, response, link, rng);
      if code == Ok && lockStatus != GC_UNLOCKED { code := Locked; }
      Advance(5, r, v, c, link.step, s, code, View(), link.other);
    }

    /** vita_cmd56_run, from the proof of the secondary key to the last key. */
    method CollectKeys<C>(
        request: RequestBuffer, response: ResponseBuffer, link: Wire<C>, rng: Rng.RandState, ghost r: VitaSpec.Run<C>)
      returns (code: Code)
      requires Apart(request, response, rng)
      requires Continues(6, r, View(), link.other, link.step, rng.state[..])
      modifies this, request, request.data, response, response.data, link, rng.state
      ensures code != Ok ==> r.code == code && r.vita == View() && r.other == link.other
      ensures code == Ok ==> Continues(10, r, View(), link.other, link.step, rng.state[..])
    {
      hide Steps, Exec, DrawsOf, FinishStart, FinishStatus, FinishSessionKey, FinishSharedRandom, FinishVerify,
        FinishPacket18, FinishPacket20, PrepareSharedRandom, PrepareSecondaryKey, Packet18Request, Packet20Request,
        VerifyRequest, VitaSpec.StartRequest, StatusRequest, SessionKeyRequest, Rng.Next, Or80, Value16, Continues;
      ghost var v, c, s: Block := View(), link.other, rng.state[..];
      ExecVerifySecondaryKey(v, c, link.step, Rng.Next(s));
      code := VerifySecondaryKey(request, response, link, rng);
      Advance(6, r, v, c, link.step, s, code, View(), link.other);
      if code != Ok { return; }
      v, c, s := View(), link.other, rng.state[..];
      ExecPacket18(v, c, link.step, Rng.Next(s), 0x2);
      code := GetPacket18Key(request, response, link, rng, 0x2);
      Advance(7, r, v, c, link.step, s, code, View(), link.other);
      if code != Ok { return; }
      v, c, s := View(), link.other, rng.state[..];
      ExecPacket18(v, c, link.step, Rng.Next(s), 0x3);
      code := GetPacket18Key(request, response, link, rng, 0x3);
      Advance(8, r, v, c, link.step, s, code, View(), link.other);
      if code != Ok { return; }
      v, c, s := View(), link.other, rng.state[..];
      ExecPacket20(v, c, link.step, Rng.Next(s));
      code := GetPacket20Key(request, response, link, rng);
      Advance(9, r, v, c, link.step, s, code, View(), link.other);
    }

    /** vita_cmd56_run: the run of the specification, with the blocks that the generator delivers. */
    method Run<C>(link: Wire<C>, rng: Rng.RandState) returns (code: Code)
      requires rng.state.Length == 0x10
      modifies this, link, rng.state
      ensures var r := Steps(SCRIPT, old(View()), old(link.other), link.step, DrawsOf(SCRIPT, old(rng.state[..])));
        code == r.code && View() == r.vita && link.other == r.other
    {
      hide Steps, Exec, DrawsOf, Continues;
      ghost var r := Steps(SCRIPT, View(), link.other, link.step, DrawsOf(SCRIPT, rng.state[..]));
      Begins(r, View(), link.other, link.step, rng.state[..]);
      var request := new RequestBuffer();
      var response := new ResponseBuffer();
      code := OpenSession(request, response, link, rng, r);
      if code != Ok { return; }
      code := Unlock(request, response, link, rng, r);
      if code != Ok { return; }
      code := CollectKeys(request, response, link, rng, r);
      if code != Ok { return; }
      Ends(r, View(), link.other, link.step, rng.state[..]);
    }
  }
}
