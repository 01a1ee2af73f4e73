/** The cart side of CMD56 as gc.c has it: a state whose fields the handlers update, and packets handled in place. */
module Gc {
  import opened Bytes
  import opened Fips = Fips197
  import Aes
  import Rng
  import opened Cmd56
  import opened Cmd56Sm
  import opened PacketBuffers
  import Spec = GcSpec

  /** What the generator in state s delivers from here on, as far as a single handler can use it. */
  ghost function NoiseOf(s: Block, stack: Block): (n: Spec.Noise) {
    Spec.Noise(Rng.Stream(s, 0x50), stack)
  }

  lemma StreamPrefix(s: Block, n: nat, m: nat)
    requires n <= m
    ensures Rng.Stream(s, m)[..n] == Rng.Stream(s, n)
  {
    hide Rng.Nth;
  }

  /** How many blocks a request draws from the generator. */
  function Draws(request: Request, keyId: bv16): nat {
    if request.magic != CMD56_MAGIC then 0
    else if request.command == CMD_GENERATE_SESSION_KEY then 2
    else if request.command == CMD_EXCHANGE_SHARED_RANDOM then
      (if Swap16(Value16(request.data[0], request.data[1])) == keyId then 1 else 0)
    else if request.command == CMD_VERIFY_SECONDARY_KEY then 4
    else if request.command == CMD_GET_P20_KEY_AND_CMAC_SIGNATURE then 5
    else 0
  }

  class GcState {
    var lockStatus: bv16
    var keyId: bv16
    var packet20Key: Bytes32
    var packet18Key: Bytes32
    var cartRandom: Bytes32
    var vitaPart: Block
    var cartPart: Block
    var sessionKey: RoundKeys
    var secondaryKey: RoundKeys

    function View(): Spec.Cart
      reads this
    {
      Spec.Cart(lockStatus, keyId, packet20Key, packet18Key, cartRandom, vitaPart, cartPart, sessionKey, secondaryKey)
    }

    /** gc_cmd56_init. */
    constructor (p20: Bytes32, p18: Bytes32, rng: Rng.RandState)
      requires rng.state.Length == 16
      modifies rng.state
      ensures View() == Spec.Init(p20, p18)
      ensures rng.state[..] == Rng.Seeded(Rng.Seeded(Rng.Seeded(old(rng.state[..]), [0x01, 0x00]), p20), p18)
    {
      lockStatus, keyId, packet20Key, packet18Key := GC_LOCKED, RETAIL_KEY_ID, p20, p18;
      cartRandom, vitaPart, cartPart := Zeros(0x20), ZERO_BLOCK, ZERO_BLOCK;
      sessionKey, secondaryKey := Zeros(176), Zeros(176);
      new;
      rng.Seed([0x01, 0x00]);
      rng.Seed(p20);
      rng.Seed(p18);
    }

    method HandleStart(request: RequestBuffer, response: ResponseBuffer)
      requires request.data.Length == 0x1d1 && response.data.Length == 0x1f5 && request.data != response.data
      modifies this, response, response.data
      ensures (View(), response.View()) == Spec.HandleStart(old(View()), old(request.View()))
    {
      hide ResponsePayload;
      response.Start(request);
      lockStatus := GC_LOCKED;
      response.data[0xD] := 0x1;
      response.data[0xE] := 0x1;
      response.data[0xF] := 0x4;
      StartPayload(response.data[..]);
    }

    method HandleStatus(request: RequestBuffer, response: ResponseBuffer)
      requires request.data.Length == 0x1d1 && response.data.Length == 0x1f5 && request.data != response.data
      modifies response, response.data
      ensures (View(), response.View()) == Spec.HandleStatus(old(View()), old(request.View()))
    {
      hide Bytes16, Splice;
      response.Start(request);
      Copy(response.data, 0, Bytes16(lockStatus));
    }

    method HandleSessionKey(request: RequestBuffer, response: ResponseBuffer, rng: Rng.RandState, stack: Block)
      requires Apart(request, response, rng)
      modifies this, response, response.data, rng.state
      ensures (View(), response.View())
           == Spec.HandleSessionKey(old(View()), old(request.View()), NoiseOf(old(rng.state[..]), stack))
      ensures rng.state[..] == Rng.Nth(old(rng.state[..]), 2)
    {
      hide Bytes16, Swap16, Splice, ResponsePayload, Rng.Stream, Rng.Nth, SessionKey, KeyExpansion;
      ghost var noise := NoiseOf(rng.state[..], stack);
      response.Start(request);
      Copy(response.data, 0, Bytes16(Swap16(0xE000)));
      Copy(response.data, 2, Bytes16(Swap16(keyId)));
      Copy(response.data, 4, Bytes16(Swap16(0x2)));
      Copy(response.data, 6, Bytes16(Swap16(0x3)));
      rng.RandBytes(response.data, 8, 0x20);
      StreamPrefix(old(rng.state[..]), 0x20, 0x50);
      // the thirteen assignments to cart_random[0x0] .. cart_random[0xC]
      Copy(response.data, 8, [0x00, 0x01, 0x00, 0x01, 0x00, 0x00, 0x00, 0x00, 0x00, 0x00, 0x00, 0x04, 0x00]);
      SessionKeyData(keyId, noise.random, response.data[..]);
      cartRandom := response.data[8..0x28];
      DeriveSession(stack);
    }

    /** The end of handle_generate_session_key; its result buffer holds whatever the stack held before. */
    method DeriveSession(stack: Block)
      modifies this`sessionKey
      ensures sessionKey == KeyExpansion(match SessionKey(cartRandom, keyId) case Some(k) => k case None => stack)
    {
      hide SessionKey, KeyExpansion;
      var derived := new bv8[0x10](i requires 0 <= i < 0x10 => stack[i]);
      assert derived[..] == stack;
      var ok := DeriveSessionKey(derived, cartRandom, keyId);
      sessionKey := Aes.InitCtx(derived[..]);
    }

    method HandleSharedRandom(request: RequestBuffer, response: ResponseBuffer, rng: Rng.RandState, ghost stack: Block)
      requires Apart(request, response, rng) && Fits(request.View())
      modifies this, response, response.data, rng.state
      ensures (View(), response.View())
           == Spec.HandleSharedRandom(old(View()), old(request.View()), NoiseOf(old(rng.state[..]), stack))
      ensures rng.state[..] == Rng.Nth(old(rng.state[..]),
                if Swap16(Value16(old(request.data[0]), old(request.data[1]))) == old(keyId) then 1 else 0)
    {
      hide Swap16, Value16, Splice, ResponsePayload, Rng.Stream, Rng.Nth, Seal, Or80, ErrorData, SwapNumber;
      ghost var s: Block := rng.state[..];
      Rng.NothingDrawn(s, [], 0);
      ResponseStartFits(request.View());
      response.Start(request);
      if Swap16(Value16(request.data[0], request.data[1])) == keyId {
        vitaPart := Or80(request.data[2..0x12]);
        var part := new bv8[0x10](_ => 0);
        WholeOutput(part[..], Rng.Stream(s, 0x10));
        rng.RandBytes(part, 0, 0x10);
        StreamPrefix(s, 0x10, 0x50);
        cartPart := Or80(part[..]);
        Copy(response.data, 0, cartPart);
        Copy(response.data, 0x10, vitaPart);
        TwoParts(cartPart, vitaPart, response.data[..]);
        EncryptZeroIv(sessionKey, response.data, 0x20);
        SealsPayload(sessionKey, cartPart + vitaPart, response.data[..]);
      } else {
        response.Error(0x11);
      }
    }

    method HandleSecondaryKey(request: RequestBuffer, response: ResponseBuffer)
      requires request.data.Length == 0x1d1 && response.data.Length == 0x1f5 && request.data != response.data
      requires Fits(request.View())
      modifies this, request.data, response, response.data
      ensures (View(), response.View()) == Spec.HandleSecondaryKey(old(View()), old(request.View()))
      ensures request.View() == old(request.View()).(
        data := Splice(old(request.data[..]), 0, Spec.SecondaryKeyRequest(old(sessionKey), old(request.data[..]))))
    {
      hide Splice, Seal, Open, ErrorData, SwapNumber, KeyExpansion;
      ghost var d, p := request.data[..], Spec.SecondaryKeyRequest(sessionKey, request.data[..]);
      ResponseStartFits(request.View());
      response.Start(request);
      DecryptZeroIv(sessionKey, request.data, 0x30);
      OpenedAt(d, p, request.data[..]);
      assert request.data[..][..0x10] == p[..0x10] && request.data[..][0x10..0x30] == p[0x10..];
      secondaryKey := Aes.InitCtx(request.data[..0x10]);
      if request.data[0x10..0x30] == vitaPart + cartPart {
        lockStatus := GC_UNLOCKED;
      } else {
        lockStatus := GC_LOCKED;
        response.Error(0xF1);
      }
    }

    method HandleVerify(request: RequestBuffer, response: ResponseBuffer, rng: Rng.RandState, ghost stack: Block)
      requires Apart(request, response, rng)
      modifies response, response.data, rng.state
      ensures (View(), response.View())
           == Spec.HandleVerify(old(View()), old(request.View()), NoiseOf(old(rng.state[..]), stack))
      ensures rng.state[..] == Rng.Nth(old(rng.state[..]), 4)
    {
      hide Splice, ResponsePayload, Rng.Stream, Rng.Nth, Seal, Or80, Spec.PaddedAnswer;
      ghost var noise := NoiseOf(rng.state[..], stack);
      StreamPrefix(rng.state[..], 0x40, 0x50);
      response.Start(request);
      rng.RandBytes(response.data, 0, 0x40);
      Copy(response.data, 0x8, Or80(request.data[..0x10]));
      Copy(response.data, 0x18, cartRandom);
      ghost var p := Spec.PaddedAnswer(noise.random, Or80(request.data[..0x10]), cartRandom);
      AnswerInPlace(0x40, noise.random, Or80(request.data[..0x10]), cartRandom, response.data[..]);
      assert p + noise.random[0x40..0x40] == p;
      PayloadStarts(p, []);
      EncryptZeroIv(secondaryKey, response.data, 0x40);
      SealsPayload(secondaryKey, p, response.data[..]);
    }

    method HandleP18(request: RequestBuffer, response: ResponseBuffer)
      requires request.data.Length == 0x1d1 && response.data.Length == 0x1f5 && request.data != response.data
      requires Fits(request.View())
      modifies request.data, response, response.data
      ensures (View(), response.View()) == Spec.HandleP18(old(View()), old(request.View()))
      ensures request.View() ==
        if Spec.RequestSigned(old(secondaryKey), old(request.View())) then
          old(request.View()).(
            data := Splice(old(request.data[..]), 0, Spec.Packet18Challenge(old(secondaryKey), old(request.View()))))
        else old(request.View())
    {
      hide Splice, Seal, Open, ErrorData, SwapNumber, Signature, CmacHash, RequestHeader, ResponseHeader, OrByte,
        Spec.Signed, ResponsePayload;
      ghost var d := request.data[..];
      ResponseStartFits(request.View());
      response.Start(request);
      var gotCmac := new bv8[0x10](_ => 0);
      var header := RequestHeader(request.View());
      assert d[0..0x20] == d[..0x20];
      WholeOutput(gotCmac[..], Signature(secondaryKey, header, d[..0x20]));
      WholeSignature(secondaryKey, header, d[..0x20]);
      DoCmacHash(secondaryKey, request.data, 0, header, gotCmac, 0, 0x20);
      if gotCmac[..] == request.data[0x20..0x30] {
        DecryptZeroIv(secondaryKey, request.data, 0x20);
        ghost var p := Open(secondaryKey, d[..0x20]);
        OpenedAt(d, p, request.data[..]);
        assert request.data[0x1f] == p[0x1f] && request.data[0] == p[0] && request.data[..][..0x10] == p[..0x10];
        if (request.data[0x1f] != 0x2 || request.data[0x1f] != 0x3) && OrByte(request.data[0]) != request.data[0] {
          response.Error(0x11);
          return;
        }
        Copy(response.data, 0, request.data[..0x10]);
        Copy(response.data, 0x10, packet18Key);
        SpliceNext(Zeros(0x1f5), 0, p[..0x10], packet18Key);
        ZeroTail(p[..0x10] + packet18Key);
        SignedIgnoresData(secondaryKey, response.View(), ResponseStart(old(request.View())), p[..0x10] + packet18Key);
        SealAndSign(secondaryKey, response, 0x30, p[..0x10] + packet18Key, Zeros(0x10));
      } else {
        response.Error(0xF4);
      }
    }

    method HandleP20(request: RequestBuffer, response: ResponseBuffer, rng: Rng.RandState, ghost stack: Block)
      requires Apart(request, response, rng)
      modifies response, response.data, rng.state
      ensures (View(), response.View())
           == Spec.HandleP20(old(View()), old(request.View()), NoiseOf(old(rng.state[..]), stack))
      ensures rng.state[..] == Rng.Nth(old(rng.state[..]), 5)
    {
      hide Splice, ResponsePayload, Rng.Stream, Rng.Nth, Or80, Spec.PaddedAnswer, Spec.Signed;
      ghost var noise := NoiseOf(rng.state[..], stack);
      response.Start(request);
      rng.RandBytes(response.data, 0, 0x50);
      assert noise.random[..0x50] == noise.random;
      Copy(response.data, 0x8, Or80(request.data[..0x10]));
      Copy(response.data, 0x18, packet20Key);
      ghost var p := Spec.PaddedAnswer(noise.random, Or80(request.data[..0x10]), packet20Key);
      AnswerInPlace(0x50, noise.random, Or80(request.data[..0x10]), packet20Key, response.data[..]);
      SignedIgnoresData(secondaryKey, response.View(), ResponseStart(request.View()), p);
      SealAndSign(secondaryKey, response, 0x40, p, noise.random[0x40..0x50]);
    }

    /** handle_unknown_request. */
    method HandleUnknown(request: RequestBuffer, response: ResponseBuffer)
      requires request.data.Length == 0x1d1 && response.data.Length == 0x1f5 && request.data != response.data
      requires Fits(request.View())
      modifies response, response.data
      ensures (View(), response.View()) == Spec.HandleUnknown(old(View()), old(request.View()))
    {
      hide ErrorData, SwapNumber;
      ResponseStartFits(request.View());
      response.Start(request);
      response.Error(0x11);
    }

    /** gc_cmd56_run: the answer and the new state are those of the specification, for the bytes that the generator
      * delivers from its present state on.
      */
    method Run(request: RequestBuffer, response: ResponseBuffer, rng: Rng.RandState, stack: Block)
      requires Apart(request, response, rng) && Spec.Safe(request.View())
      modifies this, request.data, response, response.data, rng.state
      ensures (View(), response.View())
           == Spec.Run(old(View()), old(request.View()), old(response.View()), NoiseOf(old(rng.state[..]), stack))
      ensures request.View() == Spec.RequestAfter(old(View()), old(request.View()))
      ensures rng.state[..] == Rng.Nth(old(rng.state[..]), Draws(old(request.View()), old(keyId)))
    {
      hide Spec.HandleStart, Spec.HandleStatus, Spec.HandleSessionKey, Spec.HandleSharedRandom, Spec.HandleSecondaryKey,
        Spec.HandleVerify, Spec.HandleP18, Spec.HandleP20, Spec.HandleUnknown, Rng.Stream, Swap16, Value16,
        Spec.RequestSigned, Spec.Packet18Challenge, Spec.SecondaryKeyRequest, Splice;
      if request.magic != CMD56_MAGIC {
        return;
      }
      if request.command == CMD_START {
        HandleStart(request, response);
      } else if request.command == CMD_GET_STATUS {
        HandleStatus(request, response);
      } else if request.command == CMD_GENERATE_SESSION_KEY {
        HandleSessionKey(request, response, rng, stack);
      } else if request.command == CMD_EXCHANGE_SHARED_RANDOM {
        HandleSharedRandom(request, response, rng, stack);
      } else if request.command == CMD_EXCHANGE_SECONDARY_KEY_AND_VERIFY_SESSION {
        HandleSecondaryKey(request, response);
      } else if request.command == CMD_VERIFY_SECONDARY_KEY {
        HandleVerify(request, response, rng, stack);
      } else if request.command == CMD_GET_P18_KEY_AND_CMAC_SIGNATURE {
        HandleP18(request, response);
      } else if request.command == CMD_GET_P20_KEY_AND_CMAC_SIGNATURE {
        HandleP20(request, response, rng, stack);
      } else {
        HandleUnknown(request, response);
      }
    }
  }

  /** The last lines of the B1 and C1 handlers: the answer is sealed in place and its signature written behind it, over
    * whatever was there.
    */
  method SealAndSign(w: RoundKeys, response: ResponseBuffer, n: nat, ghost p: bytes, ghost behind: bytes)
    requires response.data.Length == 0x1f5 && |p| == n && n % 16 == 0 && n <= 0x40 && |behind| == 0x10
    requires response.data[..] == ResponsePayload(p + behind)
    modifies response.data
    ensures response.View() == Spec.Signed(w, old(response.View()), p)
  {
    hide Splice, ResponsePayload, Seal, Signature, CmacHash, ResponseHeader;
    PayloadStarts(p, behind);
    EncryptZeroIv(w, response.data, n);
    ghost var sealed := Seal(w, p);
    SealedOver(p, behind, sealed);
    PayloadStarts(sealed, behind);
    var header := ResponseHeader(response.View());
    ResponseHeaderOf(response.View(), old(response.View()));
    WholeSignature(w, header, sealed);
    DoCmacHash(w, response.data, 0, header, response.data, n, n);
    SignedOver(sealed, behind, Signature(w, header, sealed));
  }

  lemma PayloadStarts(p: bytes, q: bytes)
    requires |p| + |q| <= 0x1f5
    ensures ResponsePayload(p + q)[..|p|] == ResponsePayload(p + q)[0..|p|] == p
    ensures ResponsePayload(p + [])[..|p|] == p && p + [] == p
  {
    assert p + [] == p;
  }

  lemma ZeroTail(p: bytes)
    requires |p| + 0x10 <= 0x1f5
    ensures Splice(Zeros(0x1f5), 0, p) == ResponsePayload(p + Zeros(0x10))
  {
  }

  lemma SealedOver(p: bytes, behind: bytes, sealed: bytes)
    requires |sealed| == |p| && |p| + |behind| <= 0x1f5
    ensures Splice(ResponsePayload(p + behind), 0, sealed) == ResponsePayload(sealed + behind)
  {
  }

  lemma SignedOver(sealed: bytes, behind: bytes, t: Block)
    requires |behind| == 0x10 && |sealed| + 0x10 <= 0x1f5
    ensures Splice(ResponsePayload(sealed + behind), |sealed|, t) == ResponsePayload(sealed + t)
  {
  }

  lemma OpenedAt(d: bytes, p: bytes, e: bytes)
    requires |p| <= |d| && e == Splice(d, 0, p)
    ensures e[..|p|] == p && |e| == |d|
    ensures forall k :: 0 <= k < |p| ==> e[k] == p[k]
  {
  }

  lemma AnswerInPlace(n: nat, random: Spec.Random, challenge: Block, secret: Bytes32, d: bytes)
    requires 0x40 <= n <= 0x50
    requires d == Splice(Splice(Splice(Zeros(0x1f5), 0, random[..n]), 0x8, challenge), 0x18, secret)
    ensures d == ResponsePayload(Spec.PaddedAnswer(random, challenge, secret) + random[0x40..n])
  {
    hide Splice;
    var z, r := Zeros(0x1f5), random[..n];
    var r' := r[..0x8] + challenge + r[0x18..];
    SpliceInside(z, r, 0x8, challenge);
    SpliceInside(z, r', 0x18, secret);
    assert r'[..0x18] == random[..0x8] + challenge;
    assert random[0x38..n] == random[0x38..0x40] + random[0x40..n];
    assert r'[0x38..] == r[0x38..] == random[0x38..n];
    var a, c, e := random[..0x8] + challenge, random[0x38..0x40], random[0x40..n];
    assert a + secret + (c + e) == a + secret + c + e;
  }

  lemma SignedIgnoresData(w: RoundKeys, r: Response, s: Response, p: bytes)
    requires |p| % 16 == 0 && |p| <= 0x40 && r == s.(data := r.data)
    ensures Spec.Signed(w, r, p) == Spec.Signed(w, s, p)
  {
    hide Seal, Signature, ResponseHeader;
    ResponseHeaderOf(r, s);
  }

  lemma StartPayload(d: bytes)
    requires |d| == 0x1f5 && d[0xD] == 0x1 && d[0xE] == 0x1 && d[0xF] == 0x4
    requires forall k :: 0 <= k < 0x1f5 && k != 0xD && k != 0xE && k != 0xF ==> d[k] == 0
    ensures d == ResponsePayload(Zeros(0xD) + [0x1, 0x1, 0x4])
  {
  }

  lemma SessionKeyData(keyId: bv16, random: Spec.Random, d: bytes)
    requires d == Splice(Splice(Splice(Splice(Splice(Splice(Zeros(0x1f5),
        0, Bytes16(Swap16(0xE000))), 2, Bytes16(Swap16(keyId))), 4, Bytes16(Swap16(0x2))), 6, Bytes16(Swap16(0x3))),
        8, random[..0x20]),
        8, [0x00, 0x01, 0x00, 0x01, 0x00, 0x00, 0x00, 0x00, 0x00, 0x00, 0x00, 0x04, 0x00])
    ensures d == ResponsePayload(Spec.SessionKeyPayload(keyId, Spec.CartRandom(random)))
    ensures d[8..0x28] == Spec.CartRandom(random)
  {
    hide Bytes16, Swap16, Splice;
    var z := Zeros(0x1f5);
    var b0, b1, b2, b3 := Bytes16(Swap16(0xE000)), Bytes16(Swap16(keyId)), Bytes16(Swap16(0x2)), Bytes16(Swap16(0x3));
    var h := b0 + b1 + b2 + b3;
    SpliceNext(z, 0, b0, b1);
    SpliceNext(z, 0, b0 + b1, b2);
    SpliceNext(z, 0, b0 + b1 + b2, b3);
    var fixed := [0x00, 0x01, 0x00, 0x01, 0x00, 0x00, 0x00, 0x00, 0x00, 0x00, 0x00, 0x04, 0x00];
    SpliceOver(Splice(z, 0, h), 8, random[..0x20], fixed);
    assert fixed + random[..0x20][|fixed|..] == Spec.CartRandom(random) by {
      assert random[..0x20][0xD..] == random[0xD..0x20];
    }
    SpliceNext(z, 0, h, Spec.CartRandom(random));
    PayloadSlices(h + Spec.CartRandom(random), 8, 0x28);
    assert (h + Spec.CartRandom(random))[8..0x28] == Spec.CartRandom(random);
  }

  lemma TwoParts(a: Block, b: Block, d: bytes)
    requires d == Splice(Splice(Zeros(0x1f5), 0, a), 0x10, b)
    ensures d == ResponsePayload(a + b) && d[..0x20] == a + b
  {
  }

  /** Sealing a payload in place. */
  lemma SealsPayload(w: RoundKeys, p: bytes, d: bytes)
    requires |p| % 16 == 0 && |p| <= 0x40 && d == Splice(ResponsePayload(p), 0, Seal(w, p))
    ensures d == ResponsePayload(Seal(w, p))
  {
    hide Seal;
  }
}
