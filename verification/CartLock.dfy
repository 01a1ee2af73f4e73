/** The lock of the cart over any sequence of requests: good and bad commands in any order, with any data and any
  * random numbers.
  */
module CartLock {
  import opened Fips = Fips197
  import opened Cmd56
  import opened Cmd56Sm
  import opened GcSpec

  /** One call of gc_cmd56_run: the request, what the response buffer held, and the noise. */
  datatype Call = Call(request: Request, before: Response, noise: Noise)

  ghost predicate AllSafe(calls: seq<Call>) {
    forall i :: 0 <= i < |calls| ==> Safe(calls[i].request)
  }

  function After(cart: Cart, calls: seq<Call>): Cart
    requires AllSafe(calls)
  {
    if calls == [] then cart else
      var n := |calls| - 1;
      GcSpec.Run(After(cart, calls[..n]), calls[n].request, calls[n].before, calls[n].noise).0
  }

  predicate IsStart(request: Request) {
    request.magic == CMD56_MAGIC && request.command == 0xC4
  }

  predicate IsA3(request: Request) {
    request.magic == CMD56_MAGIC && request.command == 0xA3
  }

  /** A request without the magic is not looked at: the cart and the response buffer stay as they were. */
  lemma WrongMagic(cart: Cart, request: Request, before: Response, noise: Noise)
    requires request.magic != CMD56_MAGIC
    ensures GcSpec.Run(cart, request, before, noise) == (cart, before)
  {
  }

  predicate Addressed(request: Request) {
    request.magic == CMD56_MAGIC
  }

  /** The calls of a history that carry the magic. */
  function Heard(calls: seq<Call>): (h: seq<Call>)
    ensures forall i :: 0 <= i < |h| ==> h[i] in calls && Addressed(h[i].request)
  {
    if calls == [] then [] else
      var n := |calls| - 1;
      Heard(calls[..n]) + if Addressed(calls[n].request) then [calls[n]] else []
  }

  /** The others leave no trace in any history: the cart ends as if they had never come. */
  lemma {:induction false} OnlyTheHeardCount(cart: Cart, calls: seq<Call>)
    requires AllSafe(calls)
    ensures AllSafe(Heard(calls)) && After(cart, calls) == After(cart, Heard(calls))
    decreases |calls|
  {
    hide GcSpec.Run, Safe;
    if calls != [] {
      var n := |calls| - 1;
      OnlyTheHeardCount(cart, calls[..n]);
      if Addressed(calls[n].request) {
        assert Heard(calls)[..|Heard(calls)| - 1] == Heard(calls[..n]);
      } else {
        WrongMagic(After(cart, calls[..n]), calls[n].request, calls[n].before, calls[n].noise);
        assert Heard(calls) == Heard(calls[..n]);
      }
    }
  }

  /** One request, whatever it is. */
  lemma OneCall(cart: Cart, call: Call)
    requires Safe(call.request)
    ensures var c := GcSpec.Run(cart, call.request, call.before, call.noise).0;
      && c.keyId == cart.keyId && c.p18 == cart.p18 && c.p20 == cart.p20
      && c.lockStatus == (if IsStart(call.request) then GC_LOCKED
                          else if IsA3(call.request) then
                            (if ChallengeMatches(cart, call.request) then GC_UNLOCKED else GC_LOCKED)
                          else cart.lockStatus)
  {
    hide ChallengeMatches, Open, Seal, Signature, SessionKey, KeyExpansion, ResponsePayload, ErrorData, CartRandom,
      CartPart, PaddedAnswer, Signed, SecondaryKeyRequest, RequestHeader, SwapNumber, SessionKeyPayload, Or80, OrByte;
  }

  /** Call i was an A3 that proved knowledge of the shared random held then, and no START or A3 came after it. */
  ghost predicate UnlockedBy(cart: Cart, calls: seq<Call>, i: nat)
    requires AllSafe(calls) && i < |calls|
  {
    && IsA3(calls[i].request)
    && ChallengeMatches(After(cart, calls[..i]), calls[i].request)
    && forall j :: i < j < |calls| ==> !IsStart(calls[j].request) && !IsA3(calls[j].request)
  }

  lemma UnlockedByPrefix(cart: Cart, calls: seq<Call>, n: nat, i: nat)
    requires AllSafe(calls) && i < n == |calls| - 1
    ensures UnlockedBy(cart, calls, i) <==>
      UnlockedBy(cart, calls[..n], i) && !IsStart(calls[n].request) && !IsA3(calls[n].request)
  {
    hide ChallengeMatches, IsStart, IsA3, After;
    assert calls[..n][..i] == calls[..i];
    assert forall j :: i < j < n ==> calls[..n][j] == calls[j];
  }

  /** From a locked cart, the cart is unlocked exactly when the latest of START and A3 was a successful A3; and the key
    * id and the per-cart keys are what they were.
    */
  lemma {:induction false} LockHistory(cart: Cart, calls: seq<Call>)
    requires AllSafe(calls) && cart.lockStatus == GC_LOCKED
    ensures After(cart, calls).lockStatus == GC_UNLOCKED <==> exists i: nat :: i < |calls| && UnlockedBy(cart, calls, i)
    ensures After(cart, calls).lockStatus == GC_UNLOCKED || After(cart, calls).lockStatus == GC_LOCKED
    ensures var c := After(cart, calls); c.keyId == cart.keyId && c.p18 == cart.p18 && c.p20 == cart.p20
    decreases |calls|
  {
    hide ChallengeMatches, GcSpec.Run;
    if calls != [] {
      var n := |calls| - 1;
      LockHistory(cart, calls[..n]);
      OneCall(After(cart, calls[..n]), calls[n]);
      if IsStart(calls[n].request) || IsA3(calls[n].request) {
        forall i: nat | i < n ensures !UnlockedBy(cart, calls, i) {
        }
        assert UnlockedBy(cart, calls, n) <==> After(cart, calls).lockStatus == GC_UNLOCKED;
      } else {
        forall i: nat | i < n ensures UnlockedBy(cart, calls, i) <==> UnlockedBy(cart, calls[..n], i) {
          UnlockedByPrefix(cart, calls, n, i);
        }
        assert !UnlockedBy(cart, calls, n);
      }
    }
  }

  /** In particular from gc_cmd56_init on. */
  lemma LockSinceInit(p20: Bytes32, p18: Bytes32, calls: seq<Call>)
    requires AllSafe(calls)
    ensures After(Init(p20, p18), calls).lockStatus == GC_UNLOCKED
      <==> exists i: nat :: i < |calls| && UnlockedBy(Init(p20, p18), calls, i)
    ensures var c := After(Init(p20, p18), calls); c.keyId == RETAIL_KEY_ID && c.p18 == p18 && c.p20 == p20
  {
    hide After, UnlockedBy;
    LockHistory(Init(p20, p18), calls);
  }
}
