// What a caller of hal_led.c gets, field by field, whatever the LED did before:
// each mode of HalLedSet, each case of HalLedBlink, an update, and sleep.

module HalLedCalls {
  import opened Osal
  import opened HalLedModel
  import opened HalLedRuns
  import opened HalLedLifecycle

  // ----- HalLedSet

  // A toggle flips the mode bit. On an LED that does not blink the pin follows;
  // on one that does, the pin goes dark and the cached bit is set.
  lemma ToggleExactly(e: Engine, mask: bv8, now: nat, k: nat)
    requires |e.leds| == 4 && k < 4
    ensures var l, r := e.leds[k], HalSet(e, mask, HAL_LED_MODE_TOGGLE, now);
      && |r.leds| == 4 && r.(leds := e.leds) == e
      && (!Sel(mask, k) ==> r.leds[k] == l)
      && (Sel(mask, k) && !l.blink ==> r.leds[k] == l.(on := !l.on, pin := !l.on, cached := !l.on))
      && (Sel(mask, k) && l.blink ==> r.leds[k] == l.(on := !l.on, pin := false, cached := true))
  {
  }

  lemma OnOffExactly(e: Engine, mask: bv8, now: nat, k: nat)
    requires |e.leds| == 4 && k < 4
    ensures var l, r := e.leds[k], HalSet(e, mask, HAL_LED_MODE_ON, now);
      && |r.leds| == 4 && r.(leds := e.leds) == e
      && r.leds[k] == if !Sel(mask, k) then l
                      else l.(on := true, blink := false, flash := false, pin := true, cached := true)
    ensures var l, r := e.leds[k], HalSet(e, mask, HAL_LED_MODE_OFF, now);
      && |r.leds| == 4 && r.(leds := e.leds) == e
      && r.leds[k] == if !Sel(mask, k) then l
                      else l.(on := false, blink := false, flash := false, pin := false, cached := false)
  {
  }

  lemma OtherModes(e: Engine, mask: bv8, mode: bv8, now: nat)
    requires |e.leds| == 4 && mode !in {0, 1, 2, 4, 8}
    ensures HalSet(e, mask, mode, now) == e
  {
  }

  // ----- HalLedBlink

  // A blink starts dark in its mode bits but leaves the pin to the first update,
  // which is due at once.
  lemma BlinkExactly(e: Engine, mask: bv8, n: uint8, pct: uint8, period: uint16, now: nat, k: nat)
    requires |e.leds| == 4 && k < 4 && mask != 0 && 0 < pct < 100 && 0 < period
    ensures var l, r := e.leds[k], HalBlink(e, mask, n, pct, period, now);
      && |r.leds| == 4 && r.(leds := e.leds, timer := e.timer) == e
      && r.timer == Timer(None, true)
      && r.leds[k] == if !Sel(mask, k) then l
                      else Led(false, true, n == 0, n, pct, period, now,
                               l.cached, l.saved || (!l.blink && l.cached), l.pin)
  {
  }

  // No on time, or nothing to blink: off. All of the time: on.
  lemma BlinkSteady(e: Engine, mask: bv8, n: uint8, pct: uint8, period: uint16, now: nat)
    requires |e.leds| == 4
    ensures mask == 0 || pct == 0 || period == 0 ==>
      HalBlink(e, mask, n, pct, period, now) == HalSet(e, mask, HAL_LED_MODE_OFF, now)
    ensures mask != 0 && 100 <= pct && 0 < period ==>
      HalBlink(e, mask, n, pct, period, now) == HalSet(e, mask, HAL_LED_MODE_ON, now)
  {
  }

  // The two blinking modes: one blink, and fifty, lit for 50 ms of every second.
  lemma ModesBlink(e: Engine, mask: bv8, now: nat)
    requires |e.leds| == 4
    ensures HalSet(e, mask, HAL_LED_MODE_BLINK, now) == HalBlink(e, mask, 1, 5, 1000, now)
    ensures HalSet(e, mask, HAL_LED_MODE_FLASH, now) == HalBlink(e, mask, 50, 5, 1000, now)
  {
  }

  // ----- updates

  // A due update of a blink shows the phase it begins, the other one from before,
  // and its end shows what was saved.
  lemma UpdateShowsPhase(l: Led, now: nat)
    requires WellFormed(l)
    ensures var r := UpdateOne(l, now);
      && (!(l.blink && l.next <= now) ==> r == l)
      && (l.blink && l.next <= now && r.blink ==> r.on == r.pin == r.cached == !l.on && r.saved == l.saved)
      && (l.blink && l.next <= now && !r.blink ==> r.on == r.pin == r.cached == l.saved && !r.saved)
      && (l.blink && l.next <= now ==> (!r.blink <==> !l.on && l.todo == 0 && !l.flash))
  {
  }

  // An update of LEDs that are awake touches the timer only if some LED has a wait
  // ahead of it, and then arms it with the least; asleep it does nothing.
  lemma UpdateArms(e: Engine, now: nat) returns (wait: nat)
    requires Proper(e)
    ensures e.sleeping ==> HalUpdate(e, now) == e
    ensures !e.sleeping && (forall k | 0 <= k < 4 :: WaitOne(e.leds[k], now) == 0) ==>
      HalUpdate(e, now).timer == e.timer
    ensures !e.sleeping && (exists k | 0 <= k < 4 :: WaitOne(e.leds[k], now) != 0) ==>
      && HalUpdate(e, now).timer == Timer(Some(now + wait), e.timer.pending)
      && (exists k | 0 <= k < 4 :: WaitOne(e.leds[k], now) == wait)
      && 0 < wait && forall k | 0 <= k < 4 :: WaitOne(e.leds[k], now) == 0 || wait <= WaitOne(e.leds[k], now)
  {
    var waits := Waits(e, now);
    wait := MinPos(waits);
    MinPosIsLeast(waits);
    forall k | 0 <= k < 4
      ensures waits[k] == WaitOne(e.leds[k], now)
    {
    }
  }

  // An LED in its ON phase is lit.
  predicate Lit(l: Led) {
    l.blink && l.on ==> l.pin && l.cached
  }

  lemma ApplyLit(l: Led, a: Act, now: nat)
    requires WellFormed(l) && Lit(l) && !Twists(l, a) && a != Dark
    ensures Lit(Apply(l, a, now))
  {
  }

  lemma {:induction false} OnPhaseIsLit(w: World, evs: seq<Event>, k: nat)
    requires Legal(w) && k < 4 && Lit(w.e.leds[k])
    requires Clean(w, evs) && forall ev | ev in evs :: !ev.EnterSleep?
    ensures Lit(Run(w, evs).e.leds[k])
    decreases |evs|
  {
    if evs != [] {
      assert evs[0] in evs;
      StepLegal(w, evs[0]);
      Share(w, evs[0], k);
      ApplyLit(w.e.leds[k], ActOf(w, evs[0], k), w.now);
      OnPhaseIsLit(Step(w, evs[0]), evs[1..], k);
    }
  }

  // A blink without a count never ends by itself.
  lemma {:induction false} ContinuousGoesOn(w: World, evs: seq<Event>, k: nat)
    requires Legal(w) && k < 4 && LeftAlone(w, evs, k)
    requires w.e.leds[k].blink && w.e.leds[k].flash
    ensures Run(w, evs).e.leds[k].blink && Run(w, evs).e.leds[k].flash
    decreases |evs|
  {
    if evs != [] {
      StepLegal(w, evs[0]);
      Share(w, evs[0], k);
      ContinuousGoesOn(Step(w, evs[0]), evs[1..], k);
    }
  }

  // ----- toggling

  predicate Toggles(ev: Event, k: nat)
    requires k < 4
  {
    ev.Set? && ev.mode == HAL_LED_MODE_TOGGLE && Sel(ev.mask, k)
  }

  // Calls for other LEDs, ticks and blink events.
  predicate PassesBy(ev: Event, k: nat)
    requires k < 4
  {
    match ev
    case Set(mask, _) => !Sel(mask, k)
    case Blink(mask, _, _, _) => !Sel(mask, k)
    case Tick(_) => true
    case Deliver => true
    case _ => false
  }

  function ToggleCount(evs: seq<Event>, k: nat): nat
    requires k < 4
  {
    if evs == [] then 0 else (if Toggles(evs[0], k) then 1 else 0) + ToggleCount(evs[1..], k)
  }

  lemma ToggleStep(w: World, ev: Event, k: nat)
    requires Legal(w) && k < 4 && (Toggles(ev, k) || PassesBy(ev, k)) && !w.e.leds[k].blink
    ensures |Step(w, ev).e.leds| == 4
    ensures var l := w.e.leds[k];
      Step(w, ev).e.leds[k] == if Toggles(ev, k) then l.(on := !l.on, pin := !l.on, cached := !l.on) else l
  {
    Share(w, ev, k);
    if ev.Set? {
      ToggleExactly(w.e, ev.mask, w.now, k);
    }
  }

  // A steady LED that is only toggled is lit after a run exactly when it was lit
  // before and the toggles are even in number, or dark and they are odd.
  lemma {:induction false} TogglesAlternate(w: World, evs: seq<Event>, k: nat)
    requires Legal(w) && k < 4 && forall ev | ev in evs :: Toggles(ev, k) || PassesBy(ev, k)
    requires var l := w.e.leds[k]; !l.blink && l.on == l.pin == l.cached
    ensures var l, r := w.e.leds[k], Run(w, evs).e.leds[k];
      !r.blink && r.on == r.pin == r.cached && (r.pin <==> (l.pin <==> ToggleCount(evs, k) % 2 == 0))
    decreases |evs|
  {
    if evs != [] {
      assert evs[0] in evs;
      StepLegal(w, evs[0]);
      ToggleStep(w, evs[0], k);
      TogglesAlternate(Step(w, evs[0]), evs[1..], k);
    }
  }

  // ----- boot and sleep

  lemma InitDarkens(now: nat)
    ensures HalInit(POWER_UP, now) == Engine(seq(4, _ => Led(false, false, false, 0, 0, 0, 0, false, false, false)),
                                             false, [false, false, false, false], Timer(None, false))
  {
  }

  // Going to sleep darkens every LED and keeps everything else of it.
  lemma EnterSleepExactly(e: Engine, k: nat)
    requires |e.leds| == 4 && k < 4
    ensures var l, r := e.leds[k], HalEnterSleep(e);
      && r.sleeping && r.timer == e.timer && |r.leds| == 4 == |r.slept|
      && r.leds[k] == l.(pin := false, cached := false)
      && r.slept[k] == l.pin
  {
  }

  // Through any ticks and blink events the LEDs stay dark.
  lemma DarkAsleep(w: World, evs: seq<Event>, k: nat)
    requires Legal(w) && k < 4 && forall ev | ev in evs :: Asleep(ev)
    ensures var l := Run(After(w, EnterSleep), evs).e.leds[k];
      !l.pin && !l.cached
  {
    EnterSleepExactly(w.e, k);
    SleepKeeps(After(w, EnterSleep), evs);
  }
}
