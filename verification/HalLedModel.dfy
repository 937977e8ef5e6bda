// What one LED and the four-LED engine of hal_led.c do, as functions on
// values. `HalLedDriver` proves the in-place code against these functions and
// `HalLedRuns` proves what holds over whole runs.

module HalLedModel {
  import opened Osal

  const HAL_LED_MODE_OFF: bv8 := 0x00
  const HAL_LED_MODE_ON: bv8 := 0x01
  const HAL_LED_MODE_BLINK: bv8 := 0x02
  const HAL_LED_MODE_FLASH: bv8 := 0x04
  const HAL_LED_MODE_TOGGLE: bv8 := 0x08
  const HAL_LED_ALL: bv8 := 0x0F
  const HAL_LED_DEFAULT_DUTY_CYCLE: uint8 := 5
  const HAL_LED_DEFAULT_FLASH_COUNT: uint8 := 50
  const HAL_LED_DEFAULT_FLASH_TIME: uint16 := 1000

  // ----- masks

  // The mask of LED number `k`; 16 is where the scan over a nibble ends.
  function Bit(k: nat): bv8
    requires k <= 4
  {
    if k == 0 then 1 else if k == 1 then 2 else if k == 2 then 4 else if k == 3 then 8 else 16
  }

  predicate Sel(mask: bv8, k: nat)
    requires k < 4
  {
    if k == 0 then mask & 1 != 0 else if k == 1 then mask & 2 != 0 else if k == 2 then mask & 4 != 0 else mask & 8 != 0
  }

  // ----- one LED

  // `on`, `blink` and `flash` are the mode bits, `cached` the LED's bit in
  // HalLedState, `saved` its bit in preBlinkState, `pin` what the port drives.
  datatype Led = Led(
    on: bool, blink: bool, flash: bool,
    todo: nat, onPct: nat, time: nat, next: nat,
    cached: bool, saved: bool, pin: bool)

  datatype Request = On | Off | Toggle

  predicate WellFormed(l: Led) {
    && (l.flash ==> l.blink)
    && l.todo < 0x100
    && l.time < 0x1_0000
    && (l.blink ==> 0 < l.onPct < 100 && 0 < l.time)
  }

  // Milliseconds of the two phases of a cycle, as the 16-bit code computes them.
  function OnMs(l: Led): nat {
    (l.onPct * l.time / 100) % 0x1_0000
  }

  function OffMs(l: Led): nat
    requires l.onPct <= 100
  {
    ((100 - l.onPct) * l.time / 100) % 0x1_0000
  }

  function Show(l: Led, lit: bool): Led {
    l.(pin := lit, cached := lit)
  }

  // A stored mode is driven as it is: any mode but ON turns the pin off, any
  // mode but OFF sets the cached bit.
  function SetOne(l: Led, r: Request): Led {
    match r
    case On => Show(l.(on := true, blink := false, flash := false), true)
    case Off => Show(l.(on := false, blink := false, flash := false), false)
    case Toggle =>
      l.(on := !l.on, pin := !l.on && !l.blink, cached := !l.on || l.blink)
  }

  function BlinkOne(l: Led, n: uint8, pct: nat, period: uint16, now: nat): Led {
    l.(on := false, blink := true, flash := n == 0,
       todo := n, onPct := pct, time := period, next := now,
       saved := l.saved || (!l.blink && l.cached))
  }

  predicate Due(l: Led, now: nat) {
    l.blink && l.next <= now
  }

  function UpdateOne(l: Led, now: nat): Led
    requires WellFormed(l)
  {
    if !Due(l, now) then
      l
    else if l.on then
      Show(l, false).(on := false, next := now + OffMs(l),
                      todo := if l.flash then l.todo else (l.todo + 255) % 0x100)
    else if l.todo == 0 && !l.flash then
      SetOne(l, if l.saved then On else Off).(saved := false)
    else
      Show(l, true).(on := true, next := now + OnMs(l))
  }

  // The wait that an update computes for this LED; 0 when it does not blink.
  function WaitOne(l: Led, now: nat): nat
    requires WellFormed(l)
  {
    if !l.blink then 0
    else if now < l.next then (l.next - now) % 0x1_0000
    else if l.on then OffMs(l)
    else if l.todo == 0 && !l.flash then 0
    else OnMs(l)
  }

  // ----- the engine

  datatype Engine = Engine(leds: seq<Led>, sleeping: bool, slept: seq<bool>, timer: Timer)

  predicate Proper(e: Engine) {
    && |e.leds| == 4
    && |e.slept| == 4
    && forall k | 0 <= k < 4 :: WellFormed(e.leds[k])
  }

  function SetMask(e: Engine, mask: bv8, r: Request): Engine
    requires |e.leds| == 4
  {
    e.(leds := seq(4, k requires 0 <= k < 4 =>
      if Sel(mask, k) then SetOne(e.leds[k], r) else e.leds[k]))
  }

  function BlinkMask(e: Engine, mask: bv8, n: uint8, pct: nat, period: uint16, now: nat): Engine
    requires |e.leds| == 4
  {
    e.(leds := seq(4, k requires 0 <= k < 4 =>
         if Sel(mask, k) then BlinkOne(e.leds[k], n, pct, period, now) else e.leds[k]),
       timer := e.timer.Stop().Post())
  }

  function HalBlink(e: Engine, mask: bv8, n: uint8, pct: uint8, period: uint16, now: nat): Engine
    requires |e.leds| == 4
  {
    if mask == 0 || pct == 0 || period == 0 then SetMask(e, mask, Off)
    else if pct < 100 then BlinkMask(e, mask, n, pct, period, now)
    else SetMask(e, mask, On)
  }

  function HalSet(e: Engine, mask: bv8, mode: bv8, now: nat): Engine
    requires |e.leds| == 4
  {
    if mode == HAL_LED_MODE_BLINK then
      HalBlink(e, mask, 1, HAL_LED_DEFAULT_DUTY_CYCLE, HAL_LED_DEFAULT_FLASH_TIME, now)
    else if mode == HAL_LED_MODE_FLASH then
      HalBlink(e, mask, HAL_LED_DEFAULT_FLASH_COUNT, HAL_LED_DEFAULT_DUTY_CYCLE, HAL_LED_DEFAULT_FLASH_TIME, now)
    else if mode == HAL_LED_MODE_ON then SetMask(e, mask, On)
    else if mode == HAL_LED_MODE_OFF then SetMask(e, mask, Off)
    else if mode == HAL_LED_MODE_TOGGLE then SetMask(e, mask, Toggle)
    else e
  }

  // The running minimum of an update: zero means "none yet", and a zero wait
  // never replaces a positive one.
  function MinPos(waits: seq<nat>): nat {
    if waits == [] then 0
    else
      var m := MinPos(waits[..|waits| - 1]);
      var w := waits[|waits| - 1];
      if m == 0 || (w != 0 && w < m) then w else m
  }

  function Waits(e: Engine, now: nat): seq<nat>
    requires Proper(e)
  {
    seq(4, k requires 0 <= k < 4 => WaitOne(e.leds[k], now))
  }

  function HalUpdate(e: Engine, now: nat): Engine
    requires Proper(e)
  {
    if e.sleeping then e
    else
      var next := MinPos(Waits(e, now));
      e.(leds := seq(4, k requires 0 <= k < 4 => UpdateOne(e.leds[k], now)),
         timer := if next == 0 then e.timer else e.timer.Start(now, next))
  }

  function HalEnterSleep(e: Engine): Engine
    requires |e.leds| == 4
  {
    e.(sleeping := true,
       slept := seq(4, k requires 0 <= k < 4 => e.leds[k].pin),
       leds := seq(4, k requires 0 <= k < 4 => Show(e.leds[k], false)))
  }

  // The LEDs that were lit on entering sleep are lit again.
  function HalWake(e: Engine): Engine
    requires |e.leds| == 4 == |e.slept|
  {
    e.(leds := seq(4, k requires 0 <= k < 4 =>
      if e.slept[k] then Show(e.leds[k], true) else e.leds[k]))
  }

  function HalExitSleep(e: Engine, now: nat): Engine
    requires Proper(e)
  {
    HalUpdate(HalWake(e), now).(sleeping := false)
  }

  // Zeroed static storage, with every pin dark.
  const DARK := Led(false, false, false, 0, 0, 0, 0, false, false, false)
  const POWER_UP := Engine([DARK, DARK, DARK, DARK], false, [false, false, false, false], IDLE)

  function HalInit(e: Engine, now: nat): Engine
    requires |e.leds| == 4
  {
    HalSet(e, HAL_LED_ALL, HAL_LED_MODE_OFF, now).(sleeping := false)
  }
}
