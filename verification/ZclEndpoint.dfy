// What the temperature endpoint and the switch endpoint have in common: the
// On/Off and Identify callbacks, their two timers and the LED that shows them.
// Each endpoint adds what it does with a sample.

module ZclEndpoint {
  import opened Osal
  import opened HalLedModel
  import opened HalLedDriver
  import H = HalLedRuns
  import L = HalLedLifecycle
  import C = HalLedCalls

  const SYS_EVENT_MSG: bv16 := 0x8000
  const IDENTIFY_TIMEOUT_EVT: bv16 := 0x0001
  const SAMPLE_EVT: bv16 := 0x0002

  const IDENTIFY_MS := 1000
  const FIRST_SAMPLE_MS := 10

  // COMMAND_OFF, COMMAND_ON, and everything else.
  datatype Command = CmdOff | CmdOn | CmdToggle

  function Switched(on: bool, cmd: Command): bool {
    match cmd
    case CmdOn => true
    case CmdOff => false
    case CmdToggle => !on
  }

  // `mail` says that SYS_EVENT_MSG is pending.
  datatype Core = Core(on: bool, identifyTime: uint16, idTimer: Timer, sampleTimer: Timer, mail: bool, hal: Engine)

  function OnMode(on: bool): bv8 {
    if on then HAL_LED_MODE_ON else HAL_LED_MODE_OFF
  }

  function IdentifyChange(c: Core, led: bv8, now: nat): Core
    requires |c.hal.leds| == 4
  {
    if c.identifyTime > 0 then
      c.(idTimer := c.idTimer.Start(now, IDENTIFY_MS),
         hal := HalBlink(c.hal, led, 0xFF, HAL_LED_DEFAULT_DUTY_CYCLE, HAL_LED_DEFAULT_FLASH_TIME, now))
    else
      c.(idTimer := c.idTimer.Stop(), hal := HalSet(c.hal, led, OnMode(c.on), now))
  }

  function Identify(c: Core, time: uint16, led: bv8, now: nat): Core
    requires |c.hal.leds| == 4
  {
    IdentifyChange(c.(identifyTime := time), led, now)
  }

  function OnOff(c: Core, cmd: Command, led: bv8, now: nat): Core
    requires |c.hal.leds| == 4
  {
    OnOffChange(c.(on := Switched(c.on, cmd)), led, now)
  }

  function OnOffChange(c: Core, led: bv8, now: nat): Core
    requires |c.hal.leds| == 4
  {
    c.(hal := HalSet(c.hal, led, OnMode(c.on), now),
       sampleTimer := if c.on then c.sampleTimer.Start(now, FIRST_SAMPLE_MS) else c.sampleTimer.Stop())
  }

  // ----- which event a call of the event loop handles

  datatype Pick = PickMail | PickIdentify | PickSample | PickNone

  function PickOf(events: bv16): Pick {
    if events & SYS_EVENT_MSG != 0 then PickMail
    else if events & IDENTIFY_TIMEOUT_EVT != 0 then PickIdentify
    else if events & SAMPLE_EVT != 0 then PickSample
    else PickNone
  }

  // What the call returns as unprocessed; unknown events are discarded.
  function RestOf(events: bv16): bv16 {
    match PickOf(events)
    case PickMail => events ^ SYS_EVENT_MSG
    case PickIdentify => events ^ IDENTIFY_TIMEOUT_EVT
    case PickSample => events ^ SAMPLE_EVT
    case PickNone => 0
  }

  function MaskOf(c: Core): bv16 {
    (if c.mail then SYS_EVENT_MSG else 0)
    | (if c.idTimer.pending then IDENTIFY_TIMEOUT_EVT else 0)
    | (if c.sampleTimer.pending then SAMPLE_EVT else 0)
  }

  // The scheduler clears the event mask, calls the loop, and merges back what it
  // returns: exactly the handled event is gone.
  function Taken(c: Core, pick: Pick): Core {
    match pick
    case PickMail => c.(mail := false)
    case PickIdentify => c.(idTimer := c.idTimer.Take())
    case PickSample => c.(sampleTimer := c.sampleTimer.Take())
    case PickNone => c
  }

  lemma TakenExactly(c: Core)
    ensures var pick := PickOf(MaskOf(c));
      && MaskOf(Taken(c, pick)) == RestOf(MaskOf(c))
      && (pick == PickMail <==> c.mail)
      && (pick == PickIdentify <==> !c.mail && c.idTimer.pending)
      && (pick == PickSample <==> !c.mail && !c.idTimer.pending && c.sampleTimer.pending)
  {
    if c.mail {
    } else if c.idTimer.pending {
    }
  }

  // Mail comes before the identify event and that before the sample event; a call
  // handles one of them and returns the rest of its mask, or nothing at all.
  lemma RestExactly(events: bv16)
    ensures events & 0x8000 != 0 ==> PickOf(events) == PickMail && RestOf(events) == events ^ 0x8000
    ensures events & 0x8000 == 0 && events & 0x0001 != 0 ==>
      PickOf(events) == PickIdentify && RestOf(events) == events ^ 0x0001
    ensures events & 0x8001 == 0 && events & 0x0002 != 0 ==>
      PickOf(events) == PickSample && RestOf(events) == events ^ 0x0002
    ensures events & 0x8003 == 0 ==> PickOf(events) == PickNone && RestOf(events) == 0
  {
    if events & 0x8001 == 0 {
      BothClear(events);
    }
    if events & 0x8003 == 0 {
      AllClear(events);
    }
  }

  lemma BothClear(events: bv16)
    requires events & 0x8001 == 0
    ensures events & 0x8000 == 0 && events & 0x0001 == 0
  {
  }

  lemma AllClear(events: bv16)
    requires events & 0x8003 == 0
    ensures events & 0x8000 == 0 && events & 0x0001 == 0 && events & 0x0002 == 0
  {
  }

  // One second of the countdown.
  function IdentifyTick(c: Core, led: bv8, now: nat): Core
    requires |c.hal.leds| == 4
  {
    IdentifyChange(c.(identifyTime := if c.identifyTime > 0 then c.identifyTime - 1 else 0), led, now)
  }

  // The clock runs on, for every timer there is.
  function Ticked(c: Core, later: nat): Core {
    c.(idTimer := c.idTimer.Tick(later), sampleTimer := c.sampleTimer.Tick(later),
       hal := c.hal.(timer := c.hal.timer.Tick(later)))
  }

  // ProcessIdentifyTimeChange, on the driver itself; `c` is the endpoint's state.
  method ShowIdentify(hal: LedDriver, led: bv8, time: uint16, on: bool, timer: Timer, now: nat, ghost c: Core)
    returns (t: Timer)
    requires hal.Valid() && c.hal == hal.State() && c.identifyTime == time && c.on == on && c.idTimer == timer
    modifies hal, hal.table, hal.pins
    ensures hal.Valid()
    ensures IdentifyChange(c, led, now) == c.(idTimer := t, hal := hal.State())
  {
    if time > 0 {
      t := timer.Start(now, IDENTIFY_MS);
      hal.Blink(led, 0xFF, HAL_LED_DEFAULT_DUTY_CYCLE, HAL_LED_DEFAULT_FLASH_TIME, now);
    } else {
      var _ := hal.Set(led, if on then HAL_LED_MODE_ON else HAL_LED_MODE_OFF, now);
      t := timer.Stop();
    }
  }

  // The first half of OnOffCB: the new state.
  method NextOnOff(was: bool, cmd: Command) returns (on: bool)
    ensures on == Switched(was, cmd)
  {
    if cmd == CmdOn {
      on := true;
    } else if cmd == CmdOff {
      on := false;
    } else if was == false {
      on := true;
    } else {
      on := false;
    }
  }

  // The second half of OnOffCB, once the new state is known.
  method ShowOnOff(hal: LedDriver, led: bv8, on: bool, timer: Timer, now: nat, ghost c: Core)
    returns (t: Timer)
    requires hal.Valid() && c.hal == hal.State() && c.on == on && c.sampleTimer == timer
    modifies hal, hal.table, hal.pins
    ensures hal.Valid()
    ensures OnOffChange(c, led, now) == c.(sampleTimer := t, hal := hal.State())
  {
    if on {
      var _ := hal.Set(led, HAL_LED_MODE_ON, now);
      t := timer.Start(now, FIRST_SAMPLE_MS);
    } else {
      var _ := hal.Set(led, HAL_LED_MODE_OFF, now);
      t := timer.Stop();
    }
  }

  // ----- the LED of an endpoint

  predicate Shown(l: Led, on: bool) {
    !l.blink && l.on == on && l.cached == on && l.pin == on
  }

  // Events of the LED engine that leave LED `k` to its endpoint, outside sleep.
  predicate Spares(ev: H.Event, k: nat)
    requires k < 4
  {
    match ev
    case Set(mask, _) => !Sel(mask, k)
    case Blink(mask, _, _, _) => !Sel(mask, k)
    case Deliver => true
    case _ => false
  }

  lemma SparedStaysShown(w: H.World, ev: H.Event, k: nat, on: bool)
    requires H.Legal(w) && k < 4 && Spares(ev, k)
    ensures H.Legal(H.Step(w, ev)) && H.Step(w, ev).now == w.now
    ensures Shown(w.e.leds[k], on) ==> Shown(H.Step(w, ev).e.leds[k], on)
  {
    H.StepLegal(w, ev);
    H.Share(w, ev, k);
  }

  lemma SetShows(e: Engine, led: bv8, k: nat, on: bool, now: nat)
    requires H.Legal(H.World(e, now)) && k < 4 && Sel(led, k)
    ensures H.Legal(H.World(HalSet(e, led, OnMode(on), now), now))
    ensures Shown(HalSet(e, led, OnMode(on), now).leds[k], on)
  {
    var w := H.World(e, now);
    H.StepLegal(w, H.Set(led, OnMode(on)));
    H.Share(w, H.Set(led, OnMode(on)), k);
  }

  lemma BlinkLegal(e: Engine, led: bv8, now: nat)
    requires H.Legal(H.World(e, now))
    ensures H.Legal(H.World(HalBlink(e, led, 0xFF, HAL_LED_DEFAULT_DUTY_CYCLE, HAL_LED_DEFAULT_FLASH_TIME, now), now))
  {
    H.StepLegal(H.World(e, now), H.Blink(led, 0xFF, HAL_LED_DEFAULT_DUTY_CYCLE, HAL_LED_DEFAULT_FLASH_TIME));
  }

  lemma IdentifyChangeProper(c: Core, led: bv8, now: nat)
    requires Proper(c.hal)
    ensures Proper(IdentifyChange(c, led, now).hal)
  {
    H.StepProper(H.World(c.hal, now), H.Blink(led, 0xFF, HAL_LED_DEFAULT_DUTY_CYCLE, HAL_LED_DEFAULT_FLASH_TIME));
    SetProper(c.hal, led, c.on, now);
  }

  lemma SetProper(e: Engine, led: bv8, on: bool, now: nat)
    requires Proper(e)
    ensures Proper(HalSet(e, led, OnMode(on), now))
  {
    H.StepProper(H.World(e, now), H.Set(led, OnMode(on)));
  }

  // ----- what every event keeps

  predicate Consistent(c: Core, k: nat, now: nat)
    requires k < 4
  {
    && H.Legal(H.World(c.hal, now))
    && (c.identifyTime == 0 ==> Shown(c.hal.leds[k], c.on))
    && (c.identifyTime > 0 ==> c.idTimer.Live())
    && (c.on ==> c.sampleTimer.Live())
  }

  lemma IdentifyChangeKeeps(c: Core, led: bv8, k: nat, now: nat)
    requires k < 4 && Sel(led, k) && H.Legal(H.World(c.hal, now)) && (c.on ==> c.sampleTimer.Live())
    ensures Consistent(IdentifyChange(c, led, now), k, now)
  {
    SetShows(c.hal, led, k, c.on, now);
    BlinkLegal(c.hal, led, now);
  }

  lemma OnOffKeeps(c: Core, cmd: Command, led: bv8, k: nat, now: nat)
    requires k < 4 && Sel(led, k) && Consistent(c, k, now)
    ensures Consistent(OnOff(c, cmd, led, now), k, now)
  {
    SetShows(c.hal, led, k, Switched(c.on, cmd), now);
  }

  lemma TickedKeeps(c: Core, k: nat, now: nat, later: nat)
    requires k < 4 && Consistent(c, k, now) && now <= later
    ensures Consistent(Ticked(c, later), k, later)
  {
    H.StepLegal(H.World(c.hal, now), H.Tick(later - now));
  }

  // ----- what the callbacks do, field by field

  predicate Steady(l: Led, lit: bool) {
    !l.blink && !l.flash && l.on == lit && l.cached == lit && l.pin == lit
  }

  // An On/Off command: ON and OFF decide, anything else toggles. The LED shows
  // the new state; the first sample is taken 10 ms later, or none is due.
  lemma OnOffActs(c: Core, cmd: Command, led: bv8, k: nat, now: nat)
    requires |c.hal.leds| == 4 && k < 4 && Sel(led, k)
    ensures var r := OnOff(c, cmd, led, now);
      && |r.hal.leds| == 4
      && (r.on <==> cmd == CmdOn || (cmd == CmdToggle && !c.on))
      && Steady(r.hal.leds[k], r.on)
      && r.sampleTimer == Timer(if r.on then Some(now + 10) else None, c.sampleTimer.pending)
      && r.identifyTime == c.identifyTime && r.idTimer == c.idTimer && r.mail == c.mail && r.hal.timer == c.hal.timer
  {
    C.OnOffExactly(c.hal, led, now, k);
  }

  // A blink of 255 cycles, each lit for 50 ms of a second, that starts now.
  predicate Identifying(l: Led, now: nat) {
    && l.blink && !l.on && !l.flash
    && l.todo == 255 && l.onPct == 5 && l.time == 1000 && l.next == now
  }

  // Identify time left: the LED begins to blink and a second is counted.
  lemma IdentifyBlinks(c: Core, led: bv8, k: nat, now: nat)
    requires |c.hal.leds| == 4 && k < 4 && Sel(led, k) && 0 < c.identifyTime
    ensures var r := IdentifyChange(c, led, now);
      && |r.hal.leds| == 4
      && Identifying(r.hal.leds[k], now) && r.hal.timer == Timer(None, true)
      && r.idTimer == Timer(Some(now + 1000), c.idTimer.pending)
      && r.identifyTime == c.identifyTime && r.on == c.on && r.sampleTimer == c.sampleTimer && r.mail == c.mail
  {
    if led == 0 {
      L.NothingSelected(k);
    }
    C.BlinkExactly(c.hal, led, 255, 5, 1000, now, k);
  }

  // None left: the LED shows the On/Off state again and nothing more is counted.
  lemma IdentifyEnds(c: Core, led: bv8, k: nat, now: nat)
    requires |c.hal.leds| == 4 && k < 4 && Sel(led, k) && c.identifyTime == 0
    ensures var r := IdentifyChange(c, led, now);
      && |r.hal.leds| == 4
      && Steady(r.hal.leds[k], c.on)
      && r.idTimer == Timer(None, c.idTimer.pending)
      && r.identifyTime == 0 && r.on == c.on && r.sampleTimer == c.sampleTimer && r.mail == c.mail
  {
    C.OnOffExactly(c.hal, led, now, k);
  }

  // ----- the blink of an identifying endpoint

  // The blink event at hand is the last one of LED `k`.
  predicate EndsBlink(w: H.World, ev: H.Event, k: nat)
    requires |w.e.leds| == 4 && k < 4
  {
    var l := w.e.leds[k];
    && ev.Deliver? && w.e.timer.pending && !w.e.sleeping
    && l.blink && l.next <= w.now && !l.on && l.todo == 0 && !l.flash
  }

  lemma SparedBlink(w: H.World, ev: H.Event, k: nat)
    requires H.Legal(w) && k < 4 && Spares(ev, k)
    ensures |H.Step(w, ev).e.leds| == 4
    ensures H.Step(w, ev).e.leds[k].blink <==> w.e.leds[k].blink && !EndsBlink(w, ev, k)
  {
    H.Share(w, ev, k);
    C.UpdateShowsPhase(w.e.leds[k], w.now);
  }

  // ----- the countdown, on time

  // The identify time runs out at `end`, or has run out.
  predicate CountsTo(c: Core, now: nat, end: int) {
    if c.identifyTime == 0 then end <= now
    else if c.idTimer.pending then now + 1000 * (c.identifyTime - 1) == end
    else c.idTimer.due.Some? && now <= c.idTimer.due.value && c.idTimer.due.value + 1000 * (c.identifyTime - 1) == end
  }

  // The clock stops at a deadline of the identify timer until it is handled.
  predicate CountOnTime(c: Core, now: nat, dt: nat) {
    dt == 0 || (!c.idTimer.pending && (c.idTimer.due.Some? ==> now + dt <= c.idTimer.due.value))
  }

  // A command counts from now on. An identify event that is still pending from
  // an earlier one makes it a second shorter.
  lemma IdentifyCounts(c: Core, time: uint16, led: bv8, now: nat)
    requires |c.hal.leds| == 4 && 0 < time
    ensures CountsTo(Identify(c, time, led, now), now, now + 1000 * (time - if c.idTimer.pending then 1 else 0))
  {
  }

  lemma TickCounts(c: Core, now: nat, dt: nat, end: int)
    requires CountsTo(c, now, end) && CountOnTime(c, now, dt)
    ensures CountsTo(Ticked(c, now + dt), now + dt, end)
  {
  }

  lemma IdentifyTickCounts(c: Core, led: bv8, now: nat, end: int)
    requires |c.hal.leds| == 4 && c.idTimer.pending && CountsTo(c, now, end)
    ensures CountsTo(IdentifyTick(Taken(c, PickIdentify), led, now), now, end)
    ensures end <= now ==> IdentifyTick(Taken(c, PickIdentify), led, now).identifyTime == 0
  {
  }
}
