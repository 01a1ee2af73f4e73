/** An honest run: the console of vita.c against the cart of gc.c. Every step is followed on both sides, for every key,
  * every state the two start in and every byte the random number generators may deliver.
  */
module Handshake {
  import opened Bytes
  import opened Fips = Fips197
  import opened Cmd56
  import opened Cmd56Sm
  import opened GcSpec
  import opened VitaSpec

  /** The cart at the far end of the link, with the noise of its future calls. */
  datatype Far = Far(cart: Cart, noise: seq<Noise>)

  const BLANK: Response := Response(0, 0, 0, 0, Zeros(0x1f5))

  function CartLink(far: Far, request: Request): (Far, Response) {
    if Safe(request) && far.noise != [] then
      var (cart, response) := GcSpec.Run(far.cart, request, BLANK, far.noise[0]);
      (Far(cart, far.noise[1..]), response)
    else (far, BLANK)
  }

  /** One step of the exchange on both sides. */
  function Both(step: Step, vita: Vita, random: Block, cart: Cart, noise: Noise): (r: (Code, Vita, Cart)) {
    var (v, request) := Prepare(step, vita, random);
    if Safe(request) then
      var (c, response) := GcSpec.Run(cart, request, BLANK, noise);
      var (code, v') := Finish(step, v, request, random, response);
      (code, v', c)
    else (InvalidArgument, vita, cart)
  }

  lemma StartStep(vita: Vita, random: Block, cart: Cart, noise: Noise)
    ensures Both(Start, vita, random, cart, noise) == (Ok, vita, cart.(lockStatus := GC_LOCKED))
  {
  }

  lemma StatusStep(vita: Vita, random: Block, cart: Cart, noise: Noise)
    ensures cart.lockStatus == GC_LOCKED ==>
      Both(StatusLocked, vita, random, cart, noise) == (Ok, vita.(lockStatus := GC_LOCKED), cart)
    ensures cart.lockStatus == GC_UNLOCKED ==>
      Both(StatusUnlocked, vita, random, cart, noise) == (Ok, vita.(lockStatus := GC_UNLOCKED), cart)
  {
  }

  // ----- key exchange -----

  /** The key ids a console accepts: the flag, when set, shuts out the ids above 0x8001. */
  predicate Accepts(allowPrototypeKeys: bool, keyId: bv16) {
    keyId == 0x1 || keyId == 0x8001 || (!allowPrototypeKeys && (keyId == 0x8002 || keyId == 0x8003))
  }

  lemma SessionKeyFields(keyId: bv16, r: Bytes32)
    ensures var d := ResponsePayload(SessionKeyPayload(keyId, r));
      Swap16(Value16(d[2], d[3])) == keyId && d[0x8..0x28] == r
  {
    hide Swap16, Bytes16, Value16, Splice;
    var p := SessionKeyPayload(keyId, r);
    PayloadSlices(p, 0x8, 0x28);
    PayloadSlices(p, 2, 4);
    var d := ResponsePayload(p);
    assert p[2..4] == Bytes16(Swap16(keyId));
    assert d[2] == d[2..4][0] && d[3] == d[2..4][1];
    Field16(Swap16(keyId));
    Field16(keyId);
  }

  lemma SessionKeyStep(vita: Vita, random: Block, cart: Cart, noise: Noise)
    ensures var (code, v, c) := Both(GetSessionKey, vita, random, cart, noise);
      var r := CartRandom(noise.random);
      if Accepts(vita.allowPrototypeKeys, cart.keyId) then
        && SessionKey(r, cart.keyId).Some?
        && var w := KeyExpansion(SessionKey(r, cart.keyId).value);
        && code == Ok
        && v == vita.(keyId := cart.keyId, cartRandom := r, sessionKey := w)
        && c == cart.(cartRandom := r, sessionKey := w)
      else
        code == InvalidKeyId
  {
    hide SessionKey, CartRandom, ResponsePayload, SessionKeyPayload, Swap16, Value16, KeyExpansion;
    var r := CartRandom(noise.random);
    SessionKeyFields(cart.keyId, r);
    KnownKeyIds(r, cart.keyId);
  }

  lemma KeyIdField(keyId: bv16, random: Block)
    ensures var d := RequestPayload(Bytes16(Swap16(keyId)) + random);
      Swap16(Value16(d[0], d[1])) == keyId && d[2..0x12] == random
  {
    hide Swap16, Bytes16, Value16, Splice;
    var p := Bytes16(Swap16(keyId)) + random;
    PayloadSlices(p, 0, 2);
    PayloadSlices(p, 2, 0x12);
    var d := RequestPayload(p);
    assert d[0] == d[0..2][0] && d[1] == d[0..2][1];
    assert p[0..2] == Bytes16(Swap16(keyId)) && p[2..0x12] == random;
    Field16(Swap16(keyId));
    Field16(keyId);
  }

  /** A sealed payload of a response opens to what was sealed. */
  lemma SealedPayload(w: RoundKeys, p: bytes)
    requires |p| % 16 == 0 && |p| <= 0x40
    ensures Open(w, ResponsePayload(Seal(w, p))[..|p|]) == p
    ensures Open(w, RequestPayload(Seal(w, p))[..|p|]) == p
  {
    hide Seal, Open;
    var c := Seal(w, p);
    PayloadSlices(c, 0, |p|);
    assert c[0..|p|] == c;
    assert ResponsePayload(c)[..|p|] == ResponsePayload(c)[0..|p|];
    assert RequestPayload(c)[..|p|] == RequestPayload(c)[0..|p|];
    OpenSealed(w, p, |p|);
  }

  lemma SharedRandomStep(vita: Vita, random: Block, cart: Cart, noise: Noise)
    requires vita.keyId == cart.keyId && vita.sessionKey == cart.sessionKey
    ensures var k := CartPart(noise.random);
      Both(SharedRandom, vita, random, cart, noise)
      == (Ok, vita.(vitaPart := random, cartPart := k), cart.(vitaPart := Or80(random), cartPart := k))
  {
    hide ResponsePayload, RequestPayload, Swap16, Value16, Bytes16, Seal, Open, Or80;
    var k := CartPart(noise.random);
    var p := k + Or80(random);
    KeyIdField(cart.keyId, random);
    SealedPayload(cart.sessionKey, p);
    assert p[..0x10] == k;
    assert p[0x11..0x20] == Or80(random)[1..];
    Or80Idempotent(random);
  }

  lemma SecondaryKeyStep(vita: Vita, random: Block, cart: Cart, noise: Noise)
    requires vita.sessionKey == cart.sessionKey
    requires Or80(vita.vitaPart) == cart.vitaPart && Or80(vita.cartPart) == cart.cartPart
    ensures var w := KeyExpansion(random);
      Both(SecondaryKey, vita, random, cart, noise)
      == (Ok, vita.(secondaryKey := w, vitaPart := cart.vitaPart, cartPart := cart.cartPart),
          cart.(secondaryKey := w, lockStatus := GC_UNLOCKED))
  {
    hide RequestPayload, Seal, Open, Or80, KeyExpansion;
    var p := random + cart.vitaPart + cart.cartPart;
    SealedPayload(cart.sessionKey, p);
    assert p[..0x10] == random && p[0x10..] == cart.vitaPart + cart.cartPart;
  }

  // ----- the keys -----

  lemma AnswerFields(random: Random, challenge: Block, secret: Bytes32)
    ensures var p := PaddedAnswer(random, challenge, secret);
      p[0x9..0x18] == challenge[1..] && p[0x18..0x38] == secret
  {
  }

  lemma ChallengeField(challenge: Block)
    ensures RequestPayload(challenge)[..0x10] == challenge
    ensures RequestPayload(challenge)[0x1..0x10] == challenge[1..]
  {
    PayloadSlices(challenge, 0, 0x10);
    PayloadSlices(challenge, 1, 0x10);
    assert challenge[0..0x10] == challenge;
    assert RequestPayload(challenge)[..0x10] == RequestPayload(challenge)[0..0x10];
  }

  lemma VerifyStep(vita: Vita, random: Block, cart: Cart, noise: Noise)
    requires vita.secondaryKey == cart.secondaryKey && vita.cartRandom == cart.cartRandom
    ensures Both(VerifySecondaryKey, vita, random, cart, noise) == (Ok, vita, cart)
  {
    hide RequestPayload, ResponsePayload, Seal, Open, Or80, PaddedAnswer;
    var challenge := Or80(random);
    Or80Idempotent(random);
    ChallengeField(challenge);
    AnswerFields(noise.random, challenge, cart.cartRandom);
    SealedPayload(cart.secondaryKey, PaddedAnswer(noise.random, challenge, cart.cartRandom));
  }

  /** What the console sees of a signed answer. */
  lemma SignedFields(w: RoundKeys, response: Response, p: bytes)
    requires |p| % 16 == 0 && |p| <= 0x40
    ensures var r := Signed(w, response, p);
      && r == response.(data := r.data)
      && Open(w, r.data[..|p|]) == p
      && SignatureHolds(w, r, |p|)
  {
    hide Seal, Open, Signature, ResponseHeader, Splice;
    var sealed := Seal(w, p);
    var q := sealed + Signature(w, ResponseHeader(response), sealed);
    var n := |p|;
    PayloadSlices(q, 0, n);
    PayloadSlices(q, n, n + 0x10);
    var d := ResponsePayload(q);
    assert d[..n] == d[0..n] && q[0..n] == sealed;
    assert q[n..n + 0x10] == Signature(w, ResponseHeader(response), sealed);
    OpenSealed(w, p, n);
    ResponseHeaderOf(response, response.(data := d));
  }

  /** What the cart sees of a B1 request: the signature is right, and the first two blocks open to the plaintext. */
  lemma Packet18Fields(w: RoundKeys, challenge: Block, kind: bv8)
    ensures var r := Packet18Request(w, challenge, kind);
      && Signature(w, RequestHeader(r), r.data[..0x20]) == r.data[0x20..0x30]
      && Open(w, r.data[..0x20]) == challenge + Zeros(0xF) + [kind]
  {
    hide Seal, Open, Signature, RequestHeader, Splice;
    var start := RequestStart(CMD_GET_P18_KEY_AND_CMAC_SIGNATURE, 0x33, 0x43, 0x11);
    var plain := Packet18Plain(challenge, kind);
    var sealed := Seal(w, plain)[..0x20];
    var q := sealed + Signature(w, RequestHeader(start), sealed);
    PayloadSlices(q, 0, 0x20);
    PayloadSlices(q, 0x20, 0x30);
    var r := Packet18Request(w, challenge, kind);
    RequestHeaderOf(start, r);
    assert r.data[..0x20] == r.data[0..0x20] && q[0..0x20] == sealed;
    assert q[0x20..0x30] == Signature(w, RequestHeader(start), sealed);
    OpenSealed(w, plain, 0x20);
    assert plain[..0x20] == challenge + Zeros(0xF) + [kind];
  }

  lemma Packet18Step(kind: bv8, vita: Vita, random: Block, cart: Cart, noise: Noise)
    requires vita.secondaryKey == cart.secondaryKey
    ensures Both(Packet18(kind), vita, random, cart, noise) == (Ok, vita.(p18 := cart.p18), cart)
  {
    hide ResponsePayload, RequestPayload, Seal, Open, Signature, Or80, RequestHeader, ResponseHeader, OrByte, Signed,
      SignatureHolds, Packet18Plain, SwapNumber;
    var challenge := Or80(random);
    Or80Idempotent(random);
    Packet18Fields(cart.secondaryKey, challenge, kind);
    var request := Packet18Request(cart.secondaryKey, challenge, kind);
    var p := challenge + Zeros(0xF) + [kind];
    assert p[0] == challenge[0] && p[..0x10] == challenge;
    var q := challenge + cart.p18;
    assert q[0x1..0x10] == challenge[1..] && q[0x10..0x30] == cart.p18;
    ResponseStartFits(request);
    SignedFields(cart.secondaryKey, ResponseStart(request), q);
  }

  lemma Packet20Step(vita: Vita, random: Block, cart: Cart, noise: Noise)
    requires vita.secondaryKey == cart.secondaryKey
    ensures Both(Packet20, vita, random, cart, noise) == (Ok, vita.(p20 := cart.p20), cart)
  {
    hide ResponsePayload, RequestPayload, Seal, Open, Signature, Or80, ResponseHeader, Signed, SignatureHolds,
      PaddedAnswer, SwapNumber;
    var challenge := Or80(random);
    Or80Idempotent(random);
    ChallengeField(challenge);
    AnswerFields(noise.random, challenge, cart.p20);
    var (_, request) := Prepare(Packet20, vita, random);
    SignedFields(cart.secondaryKey, ResponseStart(request), PaddedAnswer(noise.random, challenge, cart.p20));
  }

  // ----- the whole exchange -----

  lemma OneStep(step: Step, rest: seq<Step>, vita: Vita, far: Far, randoms: seq<Block>)
    requires |randoms| == 1 + |rest| && far.noise != []
    ensures var (code, v, c) := Both(step, vita, randoms[0], far.cart, far.noise[0]);
      var r := Steps([step] + rest, vita, far, CartLink, randoms);
      if code != Ok then r.code == code
      else
        var s := Steps(rest, v, Far(c, far.noise[1..]), CartLink, randoms[1..]);
        r.code == s.code && r.vita == s.vita && r.other == s.other
  {
  }

  ghost predicate SameEnd(r: VitaSpec.Run<Far>, s: VitaSpec.Run<Far>) {
    r.code == s.code && r.vita == s.vita && r.other == s.other
  }

  /** OneStep for a step that is known to succeed. */
  lemma Succeeds(step: Step, steps: seq<Step>, vita: Vita, far: Far, randoms: seq<Block>, v: Vita, c: Cart)
    requires |randoms| == |steps| && steps != [] && steps[0] == step && far.noise != []
    requires Both(step, vita, randoms[0], far.cart, far.noise[0]) == (Ok, v, c)
    ensures SameEnd(Steps(steps, vita, far, CartLink, randoms),
                    Steps(steps[1..], v, Far(c, far.noise[1..]), CartLink, randoms[1..]))
  {
    hide Both, Steps, CartLink;
    assert [step] + steps[1..] == steps;
    OneStep(step, steps[1..], vita, far, randoms);
  }

  /** START, the status and the session key: what the two sides share after the third step. */
  lemma OpeningSteps(vita: Vita, cart: Cart, randoms: seq<Block>, noise: seq<Noise>)
    requires |randoms| == |SCRIPT| == |noise|
    ensures var r := Steps(SCRIPT, vita, Far(cart, noise), CartLink, randoms);
      var x := CartRandom(noise[2].random);
      if Accepts(vita.allowPrototypeKeys, cart.keyId) then
        && SessionKey(x, cart.keyId).Some?
        && var w := KeyExpansion(SessionKey(x, cart.keyId).value);
        && SameEnd(r, Steps(SCRIPT[3..],
              vita.(lockStatus := GC_LOCKED, keyId := cart.keyId, cartRandom := x, sessionKey := w),
              Far(cart.(lockStatus := GC_LOCKED, cartRandom := x, sessionKey := w), noise[3..]),
                            CartLink, randoms[3..]))
      else
        r.code == InvalidKeyId
  {
    hide Both, Steps, CartLink, SessionKey, KeyExpansion, CartRandom;
    var c := cart.(lockStatus := GC_LOCKED);
    StartStep(vita, randoms[0], cart, noise[0]);
    Succeeds(Start, SCRIPT, vita, Far(cart, noise), randoms, vita, c);
    var v := vita.(lockStatus := GC_LOCKED);
    StatusStep(vita, randoms[1], c, noise[1]);
    Succeeds(StatusLocked, SCRIPT[1..], vita, Far(c, noise[1..]), randoms[1..], v, c);
    assert SCRIPT[1..][1..] == SCRIPT[2..] && noise[1..][1..] == noise[2..] && randoms[1..][1..] == randoms[2..];
    SessionKeyStep(v, randoms[2], c, noise[2]);
    assert [GetSessionKey] + SCRIPT[3..] == SCRIPT[2..];
    assert noise[2..][1..] == noise[3..] && randoms[2..][1..] == randoms[3..];
    OneStep(GetSessionKey, SCRIPT[3..], v, Far(c, noise[2..]), randoms[2..]);
  }

  /** The shared random and the secondary key: after these the cart is unlocked. */
  lemma UnlockingSteps(v: Vita, c: Cart, randoms: seq<Block>, noise: seq<Noise>)
    requires |randoms| == |SCRIPT| == |noise|
    requires v.keyId == c.keyId && v.sessionKey == c.sessionKey
    ensures var a, b, w := Or80(randoms[3]), CartPart(noise[3].random), KeyExpansion(randoms[4]);
      SameEnd(Steps(SCRIPT[3..], v, Far(c, noise[3..]), CartLink, randoms[3..]),
              Steps(SCRIPT[6..],
                v.(vitaPart := a, cartPart := b, secondaryKey := w, lockStatus := GC_UNLOCKED),
                Far(c.(vitaPart := a, cartPart := b, secondaryKey := w, lockStatus := GC_UNLOCKED), noise[6..]),
                CartLink, randoms[6..]))
  {
    hide Both, Steps, CartLink, KeyExpansion, Or80;
    var a, b, w := Or80(randoms[3]), CartPart(noise[3].random), KeyExpansion(randoms[4]);
    Or80Idempotent(noise[3].random[..0x10]);
    var v3, c3 := v.(vitaPart := randoms[3], cartPart := b), c.(vitaPart := a, cartPart := b);
    SharedRandomStep(v, randoms[3], c, noise[3]);
    Succeeds(SharedRandom, SCRIPT[3..], v, Far(c, noise[3..]), randoms[3..], v3, c3);
    assert SCRIPT[3..][1..] == SCRIPT[4..] && noise[3..][1..] == noise[4..] && randoms[3..][1..] == randoms[4..];
    var v4 := v.(vitaPart := a, cartPart := b, secondaryKey := w);
    var c4 := c3.(secondaryKey := w, lockStatus := GC_UNLOCKED);
    SecondaryKeyStep(v3, randoms[4], c3, noise[4]);
    Succeeds(SecondaryKey, SCRIPT[4..], v3, Far(c3, noise[4..]), randoms[4..], v4, c4);
    assert SCRIPT[4..][1..] == SCRIPT[5..] && noise[4..][1..] == noise[5..] && randoms[4..][1..] == randoms[5..];
    StatusStep(v4, randoms[5], c4, noise[5]);
    Succeeds(StatusUnlocked, SCRIPT[5..], v4, Far(c4, noise[5..]), randoms[5..], v4.(lockStatus := GC_UNLOCKED), c4);
    assert SCRIPT[5..][1..] == SCRIPT[6..] && noise[5..][1..] == noise[6..] && randoms[5..][1..] == randoms[6..];
  }

  /** The secondary key is verified and the per-cart keys are handed over. */
  lemma KeySteps(v: Vita, c: Cart, randoms: seq<Block>, noise: seq<Noise>)
    requires |randoms| == |SCRIPT| == |noise|
    requires v.secondaryKey == c.secondaryKey && v.cartRandom == c.cartRandom
    ensures var r := Steps(SCRIPT[6..], v, Far(c, noise[6..]), CartLink, randoms[6..]);
      r.code == Ok && r.vita == v.(p18 := c.p18, p20 := c.p20) && r.other == Far(c, noise[10..])
  {
    hide Both, Steps, CartLink;
    VerifyStep(v, randoms[6], c, noise[6]);
    Succeeds(VerifySecondaryKey, SCRIPT[6..], v, Far(c, noise[6..]), randoms[6..], v, c);
    assert SCRIPT[6..][1..] == SCRIPT[7..] && noise[6..][1..] == noise[7..] && randoms[6..][1..] == randoms[7..];
    var v7 := v.(p18 := c.p18);
    Packet18Step(0x2, v, randoms[7], c, noise[7]);
    Succeeds(Packet18(0x2), SCRIPT[7..], v, Far(c, noise[7..]), randoms[7..], v7, c);
    assert SCRIPT[7..][1..] == SCRIPT[8..] && noise[7..][1..] == noise[8..] && randoms[7..][1..] == randoms[8..];
    Packet18Step(0x3, v7, randoms[8], c, noise[8]);
    Succeeds(Packet18(0x3), SCRIPT[8..], v7, Far(c, noise[8..]), randoms[8..], v7, c);
    assert SCRIPT[8..][1..] == SCRIPT[9..] && noise[8..][1..] == noise[9..] && randoms[8..][1..] == randoms[9..];
    var v9 := v7.(p20 := c.p20);
    Packet20Step(v7, randoms[9], c, noise[9]);
    Succeeds(Packet20, SCRIPT[9..], v7, Far(c, noise[9..]), randoms[9..], v9, c);
    assert SCRIPT[9..][1..] == [] && noise[9..][1..] == noise[10..] && randoms[9..][1..] == [];
    NoSteps(v9, Far(c, noise[10..]));
  }

  lemma NoSteps(v: Vita, far: Far)
    ensures var r := Steps([], v, far, CartLink, []); r.code == Ok && r.vita == v && r.other == far
  {
  }

  /** Everything the two sides both hold is the same. */
  ghost predicate Agree(v: Vita, c: Cart) {
    && v.lockStatus == c.lockStatus && v.keyId == c.keyId && v.p18 == c.p18 && v.p20 == c.p20
    && v.cartRandom == c.cartRandom && v.vitaPart == c.vitaPart && v.cartPart == c.cartPart
    && v.sessionKey == c.sessionKey && v.secondaryKey == c.secondaryKey
  }

  ghost predicate IsSessionKey(w: RoundKeys, cartRandom: Bytes32, keyId: bv16) {
    SessionKey(cartRandom, keyId).Some? && w == KeyExpansion(SessionKey(cartRandom, keyId).value)
  }

  /** An honest run succeeds exactly for the key ids the console accepts, whatever state the two sides start in and
    * whatever their random number generators deliver; it leaves the cart unlocked and the two sides with the same key
    * id, per-cart keys, cart random, shared random, session key and secondary key.
    */
  lemma HonestRun(vita: Vita, cart: Cart, randoms: seq<Block>, noise: seq<Noise>, r: VitaSpec.Run<Far>)
    requires |randoms| == |SCRIPT| == |noise|
    requires r == Steps(SCRIPT, vita, Far(cart, noise), CartLink, randoms)
    ensures r.code == (if Accepts(vita.allowPrototypeKeys, cart.keyId) then Ok else InvalidKeyId)
    ensures r.code == Ok ==> Agree(r.vita, r.other.cart) && r.vita.lockStatus == GC_UNLOCKED
    ensures r.code == Ok ==> r.vita.keyId == cart.keyId && r.vita.p18 == cart.p18 && r.vita.p20 == cart.p20
    ensures r.code == Ok ==> r.vita.cartRandom == CartRandom(noise[2].random)
    ensures r.code == Ok ==> r.vita.vitaPart == Or80(randoms[3]) && r.vita.cartPart == CartPart(noise[3].random)
    ensures r.code == Ok ==> IsSessionKey(r.vita.sessionKey, r.vita.cartRandom, r.vita.keyId)
    ensures r.code == Ok ==> r.vita.secondaryKey == KeyExpansion(randoms[4])
  {
    hide Both, Steps, CartLink, SessionKey, KeyExpansion, CartRandom, Or80;
    OpeningSteps(vita, cart, randoms, noise);
    if Accepts(vita.allowPrototypeKeys, cart.keyId) {
      var x := CartRandom(noise[2].random);
      var w := KeyExpansion(SessionKey(x, cart.keyId).value);
      var v3 := vita.(lockStatus := GC_LOCKED, keyId := cart.keyId, cartRandom := x, sessionKey := w);
      var c3 := cart.(lockStatus := GC_LOCKED, cartRandom := x, sessionKey := w);
      UnlockingSteps(v3, c3, randoms, noise);
      var a, b, s := Or80(randoms[3]), CartPart(noise[3].random), KeyExpansion(randoms[4]);
      KeySteps(v3.(vitaPart := a, cartPart := b, secondaryKey := s, lockStatus := GC_UNLOCKED),
               c3.(vitaPart := a, cartPart := b, secondaryKey := s, lockStatus := GC_UNLOCKED), randoms, noise);
    }
  }
}
