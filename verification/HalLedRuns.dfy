// What holds over whole runs of the LED engine: which modes and bits can
// occur, when the cached state tells the truth about the pins, that no wake-up
// of a blinking LED is missed, what one blink does from start to finish, and
// what sleep does to all of this.

module HalLedRuns {
  import opened Osal
  import opened HalLedModel

  // Everything that can happen to the engine. `Tick` lets the clock run and
  // the timer expire; `Deliver` hands a pending blink event to HalLedUpdate.
  datatype Event =
    | Set(mask: bv8, mode: bv8)
    | Blink(mask: bv8, n: uint8, pct: uint8, period: uint16)
    | Tick(dt: nat)
    | Deliver
    | EnterSleep
    | ExitSleep

  datatype World = World(e: Engine, now: nat)

  function Step(w: World, ev: Event): World
    requires Proper(w.e)
  {
    match ev
    case Set(mask, mode) => w.(e := HalSet(w.e, mask, mode, w.now))
    case Blink(mask, n, pct, period) => w.(e := HalBlink(w.e, mask, n, pct, period, w.now))
    case Tick(dt) => World(w.e.(timer := w.e.timer.Tick(w.now + dt)), w.now + dt)
    case Deliver =>
      if w.e.timer.pending then w.(e := HalUpdate(w.e.(timer := w.e.timer.Take()), w.now)) else w
    case EnterSleep => w.(e := HalEnterSleep(w.e))
    case ExitSleep => w.(e := HalExitSleep(w.e, w.now))
  }

  // ----- one LED's share of an event

  datatype Act =
    | Keep
    | Assign(r: Request)
    | Start(n: uint8, pct: uint8, period: uint16)
    | Refresh(lit: bool, update: bool)
    | Dark

  function BlinkAct(mask: bv8, n: uint8, pct: uint8, period: uint16, k: nat): Act
    requires k < 4
  {
    if !Sel(mask, k) then Keep
    else if mask == 0 || pct == 0 || period == 0 then Assign(Off)
    else if pct < 100 then Start(n, pct, period)
    else Assign(On)
  }

  function ActOf(w: World, ev: Event, k: nat): Act
    requires k < 4 && |w.e.slept| == 4
  {
    match ev
    case Set(mask, mode) =>
      if mode == HAL_LED_MODE_BLINK then
        BlinkAct(mask, 1, HAL_LED_DEFAULT_DUTY_CYCLE, HAL_LED_DEFAULT_FLASH_TIME, k)
      else if mode == HAL_LED_MODE_FLASH then
        BlinkAct(mask, HAL_LED_DEFAULT_FLASH_COUNT, HAL_LED_DEFAULT_DUTY_CYCLE, HAL_LED_DEFAULT_FLASH_TIME, k)
      else if !Sel(mask, k) then Keep
      else if mode == HAL_LED_MODE_ON then Assign(On)
      else if mode == HAL_LED_MODE_OFF then Assign(Off)
      else if mode == HAL_LED_MODE_TOGGLE then Assign(Toggle)
      else Keep
    case Blink(mask, n, pct, period) => BlinkAct(mask, n, pct, period, k)
    case Tick(_) => Keep
    case Deliver => if w.e.timer.pending && !w.e.sleeping then Refresh(false, true) else Keep
    case EnterSleep => Dark
    case ExitSleep => Refresh(w.e.slept[k], !w.e.sleeping)
  }

  function Apply(l: Led, a: Act, now: nat): Led
    requires WellFormed(l)
  {
    match a
    case Keep => l
    case Assign(r) => SetOne(l, r)
    case Start(n, pct, period) => BlinkOne(l, n, pct, period, now)
    case Refresh(lit, update) =>
      var s := if lit then Show(l, true) else l;
      if update then UpdateOne(s, now) else s
    case Dark => Show(l, false)
  }

  // An act that an event can really cause: a blink starts only with a duty
  // cycle and a period that HalLedBlink lets through.
  predicate Possible(a: Act) {
    a.Start? ==> 0 < a.pct < 100 && 0 < a.period
  }

  lemma BlinkShare(e: Engine, mask: bv8, n: uint8, pct: uint8, period: uint16, now: nat, k: nat)
    requires Proper(e) && k < 4
    ensures |HalBlink(e, mask, n, pct, period, now).leds| == 4
    ensures HalBlink(e, mask, n, pct, period, now).leds[k] == Apply(e.leds[k], BlinkAct(mask, n, pct, period, k), now)
    ensures Possible(BlinkAct(mask, n, pct, period, k))
  {
  }

  // Each event acts on each LED alone.
  lemma Share(w: World, ev: Event, k: nat)
    requires Proper(w.e) && k < 4
    ensures |Step(w, ev).e.leds| == 4
    ensures Step(w, ev).e.leds[k] == Apply(w.e.leds[k], ActOf(w, ev, k), w.now)
    ensures Possible(ActOf(w, ev, k))
  {
    match ev
    case Set(mask, mode) =>
      if mode == HAL_LED_MODE_BLINK {
        BlinkShare(w.e, mask, 1, HAL_LED_DEFAULT_DUTY_CYCLE, HAL_LED_DEFAULT_FLASH_TIME, w.now, k);
      } else if mode == HAL_LED_MODE_FLASH {
        BlinkShare(w.e, mask, HAL_LED_DEFAULT_FLASH_COUNT, HAL_LED_DEFAULT_DUTY_CYCLE, HAL_LED_DEFAULT_FLASH_TIME,
          w.now, k);
      }
    case Blink(mask, n, pct, period) => BlinkShare(w.e, mask, n, pct, period, w.now, k);
    case _ =>
  }

  lemma ApplyWellFormed(l: Led, a: Act, now: nat)
    requires WellFormed(l) && Possible(a)
    ensures WellFormed(Apply(l, a, now))
  {
  }

  lemma StepProper(w: World, ev: Event)
    requires Proper(w.e)
    ensures Proper(Step(w, ev).e)
  {
    var v := Step(w, ev);
    forall k | 0 <= k < 4
      ensures |v.e.leds| == 4 && WellFormed(v.e.leds[k])
    {
      Share(w, ev, k);
      ApplyWellFormed(w.e.leds[k], ActOf(w, ev, k), w.now);
    }
  }

  // ----- legal states, in every run

  // Waits are stored in 16 bits; the longest phase is 99% of 65535 ms.
  const LONGEST := 64879

  // WellFormed says that the mode is 0, 1, 2, 3, 6 or 7.
  predicate Sound(l: Led, now: nat) {
    WellFormed(l) && (l.blink ==> l.next <= now + LONGEST)
  }

  predicate Legal(w: World) {
    && Proper(w.e)
    && forall k | 0 <= k < 4 :: Sound(w.e.leds[k], w.now)
  }

  lemma PhaseBound(pct: nat, time: nat)
    requires pct < 100 && time < 0x1_0000
    ensures pct * time / 100 <= LONGEST
  {
    Grows(99 - pct, time);
    assert pct * time == 99 * time - (99 - pct) * time;
    Hundredth(pct * time);
  }

  lemma Grows(a: nat, b: nat)
    ensures 0 <= a * b
  {
  }

  lemma Hundredth(x: nat)
    requires x <= 99 * 0xFFFF
    ensures x / 100 <= LONGEST
  {
  }

  lemma ApplySound(l: Led, a: Act, now: nat, later: nat)
    requires Sound(l, now) && Possible(a) && now <= later
    ensures Sound(Apply(l, a, now), later)
  {
    match a
    case Refresh(lit, update) =>
      if update {
        UpdateSound(if lit then Show(l, true) else l, now);
      }
    case _ =>
  }

  // The 16-bit stores of a phase lose nothing.
  lemma PhasesFit(l: Led)
    requires WellFormed(l) && l.blink
    ensures OnMs(l) == l.onPct * l.time / 100 <= LONGEST
    ensures OffMs(l) == (100 - l.onPct) * l.time / 100 <= LONGEST
  {
    PhaseBound(l.onPct, l.time);
    PhaseBound(100 - l.onPct, l.time);
  }

  lemma UpdateSound(l: Led, now: nat)
    requires Sound(l, now)
    ensures Sound(UpdateOne(l, now), now)
  {
    if l.blink {
      PhasesFit(l);
    }
  }

  // No event leaves the legal modes, and no 16-bit store of a wait loses bits.
  lemma StepLegal(w: World, ev: Event)
    requires Legal(w)
    ensures Legal(Step(w, ev))
  {
    var v := Step(w, ev);
    forall k | 0 <= k < 4
      ensures |v.e.leds| == 4 && Sound(v.e.leds[k], v.now)
    {
      Share(w, ev, k);
      ApplySound(w.e.leds[k], ActOf(w, ev, k), w.now, v.now);
    }
  }

  function Run(w: World, evs: seq<Event>): (r: World)
    requires Legal(w)
    ensures Legal(r)
    decreases |evs|
  {
    if evs == [] then w
    else
      StepLegal(w, evs[0]);
      Run(Step(w, evs[0]), evs[1..])
  }

  // ----- the least positive wait

  // The fold of an update finds the minimum of the positive waits, and zero
  // exactly when there is none.
  lemma {:induction false} MinPosIsLeast(waits: seq<nat>)
    ensures MinPos(waits) == 0 <==> forall i | 0 <= i < |waits| :: waits[i] == 0
    ensures MinPos(waits) != 0 ==> MinPos(waits) in waits
    ensures forall i | 0 <= i < |waits| :: waits[i] != 0 ==> 0 < MinPos(waits) <= waits[i]
  {
    if waits != [] {
      var front := waits[..|waits| - 1];
      MinPosIsLeast(front);
      assert waits == front + [waits[|waits| - 1]];
    }
  }

  // ----- the cached state and the pins

  predicate Truthful(l: Led) {
    l.cached == l.pin
  }

  // TOGGLE on a blinking LED hands modes 2, 3, 6 or 7 to HalLedOnOff.
  predicate Twists(l: Led, a: Act) {
    a == Assign(Toggle) && l.blink
  }

  predicate Drives(l: Led, a: Act, now: nat) {
    match a
    case Keep => false
    case Assign(_) => true
    case Start(_, _, _) => false
    case Refresh(lit, update) => lit || (update && Due(l, now))
    case Dark => true
  }

  // Whether the last drive of LED `k` in a run was a toggle while it blinked;
  // `before` stands for a run in which nothing drives it.
  predicate LastTwisted(w: World, evs: seq<Event>, k: nat, before: bool)
    requires Legal(w) && k < 4
    decreases |evs|
  {
    if evs == [] then before
    else
      var l, a := w.e.leds[k], ActOf(w, evs[0], k);
      var t := if Drives(l, a, w.now) then Twists(l, a) else before;
      StepLegal(w, evs[0]);
      LastTwisted(Step(w, evs[0]), evs[1..], k, t)
  }

  lemma ApplyTruthful(l: Led, a: Act, now: nat)
    requires WellFormed(l)
    ensures Truthful(Apply(l, a, now)) <==> if Drives(l, a, now) then !Twists(l, a) else Truthful(l)
  {
  }

  // HalLedState tells the truth about an LED after a run exactly when the last
  // drive of that LED was not a toggle while it blinked.
  lemma {:induction false} TruthfulExactly(w: World, evs: seq<Event>, k: nat)
    requires Legal(w) && k < 4
    ensures Truthful(Run(w, evs).e.leds[k]) <==> !LastTwisted(w, evs, k, !Truthful(w.e.leds[k]))
    decreases |evs|
  {
    if evs != [] {
      StepLegal(w, evs[0]);
      Share(w, evs[0], k);
      ApplyTruthful(w.e.leds[k], ActOf(w, evs[0], k), w.now);
      TruthfulExactly(Step(w, evs[0]), evs[1..], k);
    }
  }

  // ----- the blink counter

  // A counted blink that shows its ON phase still owes that cycle.
  predicate Owing(l: Led) {
    l.blink && l.on && !l.flash ==> 1 <= l.todo
  }

  // The counter goes below zero, and wraps to 255, exactly when it is not owed.
  lemma CounterWraps(l: Led, now: nat)
    requires WellFormed(l)
    ensures UpdateOne(l, now).todo > l.todo <==> Due(l, now) && !Owing(l)
    ensures Due(l, now) && !Owing(l) ==> UpdateOne(l, now).todo == 255
  {
  }

  // The one way to lose the debt: toggling a counted blink in its last OFF phase.
  lemma OwingExactly(l: Led, a: Act, now: nat)
    requires WellFormed(l) && Owing(l) && Possible(a)
    ensures Owing(Apply(l, a, now)) <==> !(Twists(l, a) && !l.on && !l.flash && l.todo == 0)
  {
  }

  predicate Clean(w: World, evs: seq<Event>)
    requires Legal(w)
    decreases |evs|
  {
    evs == [] ||
    (StepLegal(w, evs[0]);
     (forall k | 0 <= k < 4 :: !Twists(w.e.leds[k], ActOf(w, evs[0], k))) && Clean(Step(w, evs[0]), evs[1..]))
  }

  // Without such a toggle every LED stays truthful and no counter ever wraps.
  lemma {:induction false} CleanRuns(w: World, evs: seq<Event>)
    requires Legal(w) && Clean(w, evs)
    requires forall k | 0 <= k < 4 :: Truthful(w.e.leds[k]) && Owing(w.e.leds[k])
    ensures forall k | 0 <= k < 4 :: Truthful(Run(w, evs).e.leds[k]) && Owing(Run(w, evs).e.leds[k])
    decreases |evs|
  {
    if evs != [] {
      StepLegal(w, evs[0]);
      var v := Step(w, evs[0]);
      forall k | 0 <= k < 4
        ensures Truthful(v.e.leds[k]) && Owing(v.e.leds[k])
      {
        Share(w, evs[0], k);
        ApplyTruthful(w.e.leds[k], ActOf(w, evs[0], k), w.now);
        OwingExactly(w.e.leds[k], ActOf(w, evs[0], k), w.now);
      }
      CleanRuns(v, evs[1..]);
    }
  }

  // ----- no missed wake-up

  predicate Awaits(t: Timer, l: Led) {
    l.blink ==> t.pending || (t.due.Some? && t.due.value <= l.next)
  }

  predicate Waking(w: World)
    requires |w.e.leds| == 4
  {
    forall k | 0 <= k < 4 :: Awaits(w.e.timer, w.e.leds[k])
  }

  // Both phases of a cycle last at least a millisecond.
  predicate Rounds(pct: nat, period: nat)
    requires pct <= 100
  {
    100 <= pct * period && 100 <= (100 - pct) * period
  }

  predicate Roundable(w: World)
    requires Legal(w)
  {
    forall k | 0 <= k < 4 :: w.e.leds[k].blink ==> Rounds(w.e.leds[k].onPct, w.e.leds[k].time)
  }

  predicate Gentle(ev: Event) {
    match ev
    case Blink(_, _, pct, period) => 0 < pct < 100 && 0 < period ==> Rounds(pct, period)
    case EnterSleep => false
    case ExitSleep => false
    case _ => true
  }

  predicate OneWay(t: Timer) {
    !(t.pending && t.due.Some?)
  }

  // What an update stores as the next change is its wait, and only an LED that
  // still blinks has one.
  lemma WaitIsGap(l: Led, now: nat)
    requires Sound(l, now)
    ensures var r := UpdateOne(l, now);
      if r.blink then r.next == now + WaitOne(l, now) else WaitOne(l, now) == 0
  {
  }

  // The phase that an update begins rounds to nothing.
  predicate Vanishes(l: Led, now: nat)
    requires WellFormed(l)
  {
    Due(l, now) && UpdateOne(l, now).blink && (if l.on then 100 - l.onPct else l.onPct) * l.time < 100
  }

  lemma VanishesExactly(l: Led, now: nat)
    requires Sound(l, now)
    ensures UpdateOne(l, now).blink && WaitOne(l, now) == 0 <==> Vanishes(l, now)
  {
    if l.blink {
      PhasesFit(l);
    }
  }

  // A delivered blink event misses a wake-up exactly when some LED begins a
  // phase that rounds to 0 ms.
  lemma WakingExactly(w: World)
    requires Legal(w) && !w.e.sleeping && w.e.timer.pending && OneWay(w.e.timer)
    ensures Waking(Step(w, Deliver)) <==> forall k | 0 <= k < 4 :: !Vanishes(w.e.leds[k], w.now)
    ensures OneWay(Step(w, Deliver).e.timer)
  {
    var waits := Waits(w.e, w.now);
    MinPosIsLeast(waits);
    var v := Step(w, Deliver);
    assert Waits(w.e.(timer := w.e.timer.Take()), w.now) == waits;
    forall k | 0 <= k < 4
      ensures v.e.leds[k] == UpdateOne(w.e.leds[k], w.now)
      ensures Awaits(v.e.timer, v.e.leds[k]) <==> !Vanishes(w.e.leds[k], w.now)
    {
      Share(w, Deliver, k);
      WaitIsGap(w.e.leds[k], w.now);
      VanishesExactly(w.e.leds[k], w.now);
      assert waits[k] == WaitOne(w.e.leds[k], w.now);
    }
  }

  // The blink state of an LED after an event that is not an update.
  lemma GentleShare(w: World, ev: Event, k: nat)
    requires Legal(w) && k < 4 && Gentle(ev) && !ev.Deliver?
    ensures var v := Step(w, ev);
      && !ActOf(w, ev, k).Refresh?
      && (ActOf(w, ev, k).Start? ==> v.e.timer.pending && Rounds(ActOf(w, ev, k).pct, ActOf(w, ev, k).period))
      && (v.e.timer == w.e.timer.Tick(v.now) || v.e.timer == w.e.timer || v.e.timer.pending)
      && (OneWay(w.e.timer) ==> OneWay(v.e.timer))
      && v.e.sleeping == w.e.sleeping
  {
  }

  lemma UpdateKeepsRate(l: Led, now: nat)
    requires WellFormed(l)
    ensures var r := UpdateOne(l, now);
      r.blink ==> l.blink && r.onPct == l.onPct && r.time == l.time
  {
  }

  lemma ApplyRounds(l: Led, a: Act, now: nat)
    requires WellFormed(l) && (l.blink ==> Rounds(l.onPct, l.time))
    requires a.Start? ==> a.pct < 100 && Rounds(a.pct, a.period)
    ensures var r := Apply(l, a, now);
      && (r.blink ==> r.onPct < 100 && Rounds(r.onPct, r.time))
      && (!a.Start? && !a.Refresh? && r.blink ==> l.blink && r.next == l.next)
  {
    match a
    case Refresh(lit, update) => UpdateKeepsRate(if lit then Show(l, true) else l, now);
    case _ =>
  }

  ghost predicate Alert(w: World) {
    Legal(w) && !w.e.sleeping && OneWay(w.e.timer) && Roundable(w) && Waking(w)
  }

  lemma StepAlert(w: World, ev: Event)
    requires Alert(w) && Gentle(ev)
    ensures Alert(Step(w, ev))
  {
    StepLegal(w, ev);
    var v := Step(w, ev);
    forall k | 0 <= k < 4
      ensures v.e.leds[k].blink ==> Rounds(v.e.leds[k].onPct, v.e.leds[k].time)
      ensures !ev.Deliver? ==> Awaits(v.e.timer, v.e.leds[k])
      ensures !Vanishes(w.e.leds[k], w.now)
    {
      Share(w, ev, k);
      if !ev.Deliver? {
        GentleShare(w, ev, k);
      }
      ApplyRounds(w.e.leds[k], ActOf(w, ev, k), w.now);
    }
    if ev.Deliver? && w.e.timer.pending {
      WakingExactly(w);
    } else if !ev.Deliver? {
      GentleShare(w, ev, 0);
    }
  }

  // In every run without sleep whose blinks have two phases of at least 1 ms,
  // every blinking LED has its event pending or a timer armed in time.
  lemma {:induction false} NoMissedWakeUp(w: World, evs: seq<Event>)
    requires Alert(w) && forall ev | ev in evs :: Gentle(ev)
    ensures Alert(Run(w, evs))
    decreases |evs|
  {
    if evs != [] {
      StepAlert(w, evs[0]);
      NoMissedWakeUp(Step(w, evs[0]), evs[1..]);
    }
  }

  // And a missed one is never made up for: the LEDs freeze.
  lemma {:induction false} StalledForever(w: World, evs: seq<Event>)
    requires Legal(w) && !w.e.timer.Live()
    requires forall ev | ev in evs :: ev.Tick? || ev.Deliver?
    ensures Run(w, evs).e == w.e
    decreases |evs|
  {
    if evs != [] {
      assert evs[0] in evs;
      StepLegal(w, evs[0]);
      assert Step(w, evs[0]).e == w.e;
      StalledForever(Step(w, evs[0]), evs[1..]);
    }
  }

  // The runs above may start where HalLedInit leaves off.
  lemma BootAlert(now: nat)
    ensures var e := HalInit(POWER_UP, now);
      && Alert(World(e, now))
      && forall k | 0 <= k < 4 :: Truthful(e.leds[k]) && Owing(e.leds[k]) && !e.leds[k].saved
  {
    forall k | 0 <= k < 4
      ensures HalInit(POWER_UP, now).leds[k] == DARK
    {
      assert POWER_UP.leds[k] == DARK;
    }
  }
}
