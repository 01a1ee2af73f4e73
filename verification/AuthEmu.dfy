/** When captured per-cart keys count as valid (auth_emu.c): the driver state around the console side of CMD56, and the
  * hook through which the system's own authentication is replaced.
  */
module AuthEmu {
  import opened Bytes
  import opened VitaSpec
  import Handshake
  import Rng
  import Soundness
  import Vita

  /** The static variables: the console state, the device context (0 for NULL), the flag and the id of the hook. */
  datatype Emu = Emu(vita: VitaSpec.Vita, context: int, authenticated: bool, hook: int)

  const INITIAL := Emu(Cleared(), 0, false, -1)

  type Draws = s: seq<Block> | |s| == |SCRIPT| witness seq(10, _ => ZERO_BLOCK)

  /** The calls that change the state, each with what the rest of the system answers: the device context and the result
    * of initialising it, who is on the other side of the card bus, the random blocks, and the results of installing
    * and of releasing the hook.
    */
  datatype Event<!C> =
    | Authenticate(context: int, initialized: int, other: C, link: Link<C>, randoms: Draws, released: int)
    | Clear
    | Enable(installed: int)
    | Disable(released: int)

  // ----- the calls on values -----

  /** The console state with which every run starts. */
  function Armed(): VitaSpec.Vita {
    Cleared().(allowPrototypeKeys := true)
  }

  function Forget(emu: Emu): Emu {
    emu.(vita := Cleared(), authenticated := false)
  }

  function Release(emu: Emu, released: int): (Emu, int) {
    if emu.hook >= 0 then (if released >= 0 then emu.(hook := -1) else emu, released) else (emu, -1)
  }

  function Install(emu: Emu, installed: int): (Emu, int) {
    var e := Forget(emu);
    (if e.hook <= 0 then e.(hook := installed) else e, 0)
  }

  function RunOf<C>(event: Event<C>): VitaSpec.Run<C>
    requires event.Authenticate?
  {
    Steps(SCRIPT, Armed(), event.other, event.link, event.randoms)
  }

  function Capture<C>(emu: Emu, event: Event<C>): (Emu, int)
    requires event.Authenticate?
  {
    hide Steps;
    var e := Forget(emu).(context := event.context);
    if event.context == 0 && event.initialized != 0 then (e, event.initialized)
    else
      var run := RunOf(event);
      if run.code == Ok then (Release(e.(vita := run.vita, authenticated := true), event.released).0, 0)
      else (e, -1)
  }

  function Apply<C>(emu: Emu, event: Event<C>): (Emu, int) {
    match event
    case Authenticate(_, _, _, _, _, _) => Capture(emu, event)
    case Clear => (Forget(emu), 0)
    case Enable(installed) => Install(emu, installed)
    case Disable(released) => Release(emu, released)
  }

  function After<C>(events: seq<Event<C>>): Emu
  {
    if events == [] then INITIAL else Apply(After(events[..|events| - 1]), events[|events| - 1]).0
  }

  // ----- validity of the captured keys -----

  predicate Succeeds<C>(event: Event<C>) {
    event.Authenticate? && (event.context != 0 || event.initialized == 0) && RunOf(event).code == Ok
  }

  /** Call i ran the protocol to its end, and since then nothing happened but attempts to release the hook. */
  ghost predicate CapturedBy<C>(events: seq<Event<C>>, i: nat) {
    i < |events| && Succeeds(events[i]) && forall j :: i < j < |events| ==> events[j].Disable?
  }

  lemma CapturedEarlier<C>(events: seq<Event<C>>, n: nat, i: nat)
    requires i < n == |events| - 1
    ensures CapturedBy(events, i) <==> CapturedBy(events[..n], i) && events[n].Disable?
  {
    hide Succeeds;
    assert forall j :: i <= j < n ==> events[..n][j] == events[j];
  }

  /** Over any sequence of calls, the flag is set exactly when some run succeeded and was not followed by another
    * authentication, a clear or an enable. Then the state is the one that run ended in; otherwise all of it is zero.
    */
  lemma {:induction false} CapturedKeys<C>(events: seq<Event<C>>)
    ensures After(events).authenticated <==> exists i: nat :: CapturedBy(events, i)
    ensures forall i: nat :: CapturedBy(events, i) ==> After(events).vita == RunOf(events[i]).vita
    ensures !After(events).authenticated ==> After(events).vita == Cleared()
    decreases |events|
  {
    hide Steps, Cleared;
    if events != [] {
      var n := |events| - 1;
      CapturedKeys(events[..n]);
      forall i: nat | i < n ensures CapturedBy(events, i) <==> CapturedBy(events[..n], i) && events[n].Disable? {
        CapturedEarlier(events, n, i);
      }
      assert CapturedBy(events, n) <==> Succeeds(events[n]);
      if events[n].Disable? && After(events[..n]).authenticated {
        var i: nat :| CapturedBy(events[..n], i);
        assert CapturedBy(events, i);
      }
    }
  }

  /** The keys were carried by responses of one complete exchange whose signatures verified and whose challenges were
    * the ones sent.
    */
  ghost predicate Carried<C>(v: VitaSpec.Vita, run: VitaSpec.Run<C>) {
    && Soundness.Commands(run.trace) == Soundness.COMMANDS
    && |run.trace| == |SCRIPT|
    && Soundness.AllGenuine(SCRIPT, v, run.trace)
    && v.p18 == Soundness.Key18(v.secondaryKey, run.trace[8].1)
    && v.p20 == Soundness.Key20(v.secondaryKey, run.trace[9].1)
  }

  /** So it is with keys that count as valid, whoever answered. */
  lemma ValidKeysAreGenuine<C>(events: seq<Event<C>>)
    requires After(events).authenticated
    ensures exists i: nat :: CapturedBy(events, i) && Carried(After(events).vita, RunOf(events[i]))
  {
    hide Steps, After, Soundness.Key18, Soundness.Key20, Soundness.AllGenuine;
    CapturedKeys(events);
    var i: nat :| CapturedBy(events, i);
    var event := events[i];
    assert event.Authenticate? && RunOf(event).code == Ok;
    Soundness.ConsoleSoundness(Armed(), event.other, event.link, event.randoms, RunOf(event));
  }

  /** With a cart that follows the protocol, authentication succeeds exactly for the key ids 0x1 and 0x8001, and then
    * the keys held are the keys of that cart, whatever was held before.
    */
  lemma HonestCartIsCaptured(emu: Emu, event: Event<Handshake.Far>)
    requires event.Authenticate? && event.context != 0
    requires event.link == Handshake.CartLink && |event.other.noise| == |SCRIPT|
    ensures var (e, res) := Capture(emu, event);
      var cart := event.other.cart;
      && (res == 0 <==> cart.keyId == 0x1 || cart.keyId == 0x8001)
      && e.authenticated == (res == 0)
      && (res == 0 ==> e.vita.keyId == cart.keyId && e.vita.p18 == cart.p18 && e.vita.p20 == cart.p20)
      && (res != 0 ==> e.vita == Cleared())
  {
    hide Steps, Handshake.CartLink, Cleared, Handshake.Agree, Handshake.IsSessionKey;
    Handshake.HonestRun(Armed(), event.other.cart, event.randoms, event.other.noise, RunOf(event));
    ArmedAccepts(event.other.cart.keyId);
  }

  lemma ArmedAccepts(keyId: bv16)
    ensures Handshake.Accepts(Armed().allowPrototypeKeys, keyId) <==> keyId == 0x1 || keyId == 0x8001
  {
  }

  // ----- the hook -----

  /** The hooks installed in the system and not yet released. */
  ghost function Live<C>(events: seq<Event<C>>): multiset<int> {
    if events == [] then multiset{} else
      var n := |events| - 1;
      var e, live := After(events[..n]), Live(events[..n]);
      match events[n]
      case Enable(installed) => if e.hook <= 0 && installed >= 0 then live + multiset{installed} else live
      case Disable(released) => if e.hook >= 0 && released >= 0 then live - multiset{e.hook} else live
      case Authenticate(_, _, _, _, _, released) =>
        if Succeeds(events[n]) && e.hook >= 0 && released >= 0 then live - multiset{e.hook} else live
      case Clear => live
  }

  function Held(emu: Emu): multiset<int> {
    if emu.hook >= 0 then multiset{emu.hook} else multiset{}
  }

  /** How often enable was called while the hook in hand had the id 0. */
  ghost function Orphaned<C>(events: seq<Event<C>>): nat {
    if events == [] then 0 else
      var n := |events| - 1;
      Orphaned(events[..n]) + if events[n].Enable? && After(events[..n]).hook == 0 then 1 else 0
  }

  /** Every live hook is in hand and can be released, but for one of id 0 for each enable that found id 0 in hand: the
    * guard takes that id for "no hook".
    */
  lemma {:induction false} HooksInHand<C>(events: seq<Event<C>>)
    ensures Live(events) == Held(After(events)) + multiset{}[0 := Orphaned(events)]
  {
    hide Steps, Cleared, Forget;
    if events != [] {
      var n := |events| - 1;
      HooksInHand(events[..n]);
      HookAfter(After(events[..n]), events[n]);
    }
  }

  /** So all live hooks are in hand if and only if no enable found the id 0 in hand. */
  lemma AllInHand<C>(events: seq<Event<C>>)
    ensures Live(events) == Held(After(events)) <==> Orphaned(events) == 0
  {
    hide Live, Held, After, Orphaned;
    HooksInHand(events);
    var n := Orphaned(events);
    assert (Held(After(events)) + multiset{}[0 := n])[0] == Held(After(events))[0] + n;
    if n == 0 {
      var none: multiset<int> := multiset{};
      assert none[0 := n] == none;
    }
  }

  lemma {:induction false} OrphansStay<C>(events: seq<Event<C>>, more: seq<Event<C>>)
    ensures Orphaned(events + more) >= Orphaned(events)
    decreases |more|
  {
    hide After;
    if more == [] {
      assert events + more == events;
    } else {
      var n := |more| - 1;
      OrphansStay(events, more[..n]);
      assert (events + more)[..|events + more| - 1] == events + more[..n];
    }
  }

  /** Enabling twice, when the system hands out the id 0 first: from then on, no call releases that hook. */
  lemma HookLost<C>(more: seq<Event<C>>)
    ensures 0 in Live([Enable(0), Enable(7)] + more)
  {
    hide Live, Held;
    var events: seq<Event<C>> := [Enable(0), Enable(7)];
    assert events[..1] == [Enable(0)] && events[..1][..0] == [];
    assert After(events[..1]).hook == 0;
    assert Orphaned(events) == 1;
    OrphansStay(events, more);
    HooksInHand(events + more);
  }

  lemma HookAfter<C>(emu: Emu, event: Event<C>)
    ensures Apply(emu, event).0.hook ==
      match event
      case Enable(installed) => if emu.hook <= 0 then installed else emu.hook
      case Disable(released) => if emu.hook >= 0 && released >= 0 then -1 else emu.hook
      case Authenticate(_, _, _, _, _, released) =>
        if Succeeds(event) && emu.hook >= 0 && released >= 0 then -1 else emu.hook
      case Clear => emu.hook
  {
    hide Steps, Cleared;
  }

  // ----- results -----

  lemma ResultOf<C>(emu: Emu, event: Event<C>)
    ensures Apply(emu, event).1 ==
      match event
      case Enable(_) => 0
      case Disable(released) => if emu.hook >= 0 then released else -1
      case Authenticate(context, initialized, _, _, _, _) =>
        if context == 0 && initialized != 0 then initialized else if Succeeds(event) then 0 else -1
      case Clear => 0
    ensures Apply(emu, event).0.context == if event.Authenticate? then event.context else emu.context
  {
    hide Steps, Cleared;
  }

  /** A cleared state holds neither key nor secret, and the flag for prototype keys is down. */
  lemma ClearedIsZero()
    ensures var v := Cleared();
      && v.p20 == v.p18 == v.cartRandom == Zeros(0x20) && v.vitaPart == v.cartPart == Zeros(16)
      && v.sessionKey == v.secondaryKey == Zeros(176)
      && v.keyId == 0 && v.lockStatus == 0 && !v.allowPrototypeKeys
  {
  }

  // ----- the driver -----

  class Driver {
    const vita: Vita.VitaState
    var context: int
    var authenticated: bool
    var hook: int

    function View(): Emu
      reads this, vita
    {
      Emu(vita.View(), context, authenticated, hook)
    }

    constructor ()
      ensures View() == INITIAL && fresh(vita)
    {
      vita := new Vita.VitaState();
      context, authenticated, hook := 0, false, -1;
    }

    /** k_clear_secret. */
    method ClearSecret()
      modifies this, vita
      ensures View() == Forget(old(View()))
    {
      vita.Clear();
      authenticated := false;
    }

    /** kDisableGcEmuMgr; `released` is what taiHookReleaseForKernel returns, if called. */
    method DisableGcEmuMgr(released: int) returns (res: int)
      modifies this
      ensures (View(), res) == Release(old(View()), released)
    {
      if hook >= 0 {
        res := released;
        if res >= 0 {
          hook := -1;
        }
        return res;
      }
      return -1;
    }

    /** kEnableGcEmuMgr; `installed` is what taiHookFunctionExportForKernel returns, if called. */
    method EnableGcEmuMgr(installed: int) returns (res: int)
      modifies this, vita
      ensures (View(), res) == Install(old(View()), installed)
    {
      ClearSecret();
      if hook <= 0 {
        hook := installed;
      }
      return 0;
    }

    /** k_run_authentication. The device context and the result of initialising it are given. */
    method RunAuthentication<C>(
        newContext: int, initialized: int, link: Vita.Wire<C>, rng: Rng.RandState, released: int)
      returns (res: int)
      requires rng.state.Length == 0x10
      modifies this, vita, link, rng.state
      ensures var draws: Draws := Vita.DrawsOf(SCRIPT, old(rng.state[..]));
        (View(), res) ==
          Capture(old(View()), Authenticate(newContext, initialized, old(link.other), link.step, draws, released))
    {
      hide Steps, Vita.DrawsOf, Cleared;
      ghost var e := View();
      ghost var draws: Draws := Vita.DrawsOf(SCRIPT, rng.state[..]);
      ClearSecret();
      context := newContext;
      if context == 0 {
        if initialized != 0 {
          return initialized;
        }
      }
      vita.Clear();
      vita.allowPrototypeKeys := true;
      assert vita.View() == Armed();
      var ret := vita.Run(link, rng);
      if ret == Ok {
        authenticated := true;
        var _ := DisableGcEmuMgr(released);
        return 0x00;
      } else {
        ClearSecret();
        return -1;
      }
    }
  }
}
