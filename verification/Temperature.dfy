// AT_ZCL_temperature.c: the endpoint that switches LED 3, counts an identify
// time down and samples a thermometer while it is on.

module Temperature {
  import opened Osal
  import opened HalLedModel
  import opened HalLedDriver
  import opened ZclEndpoint
  import H = HalLedRuns

  const HAL_LED_3: bv8 := 0x04
  const LED := 2             // the index of LED 3
  const MEASURE_MS := 1000
  const INVALID: int := -0x8000   // 0x8000 stored in a signed 16-bit attribute

  // Hundredths of a degree: 6.25 times the raw 16-bit reading, truncated toward
  // zero and cut to 16 bits.
  function Centi(raw: int): int {
    var scaled := if raw >= 0 then raw * 25 / 4 else -((-raw) * 25 / 4);
    (scaled + 0x8000) % 0x1_0000 - 0x8000
  }

  // No reading of the sensor (-55 to 125 degrees, in sixteenths) looks invalid.
  lemma ReadingsAreValid(raw: int)
    requires -880 <= raw <= 2000
    ensures Centi(raw) != INVALID && -5500 <= Centi(raw) <= 12500
  {
  }

  datatype State = State(core: Core, current: int)

  predicate Ready(s: State) {
    |s.core.hal.leds| == 4
  }

  function OnOffCB(s: State, cmd: Command, now: nat): State
    requires Ready(s)
  {
    var c := OnOff(s.core, cmd, HAL_LED_3, now);
    State(c, if c.on then s.current else INVALID)
  }

  function IdentifyCB(s: State, time: uint16, now: nat): State
    requires Ready(s)
  {
    s.(core := Identify(s.core, time, HAL_LED_3, now))
  }

  function BasicResetCB(s: State, now: nat): State
    requires Ready(s)
  {
    IdentifyCB(OnOffCB(s, CmdOff, now), 0, now)
  }

  function EpEnable(s: State, enable: bool, now: nat): State
    requires Ready(s)
  {
    if enable then OnOffCB(s, CmdOn, now) else BasicResetCB(s, now)
  }

  function Measured(s: State, raw: int, now: nat): State {
    State(s.core.(sampleTimer := s.core.sampleTimer.Start(now, MEASURE_MS)), Centi(raw))
  }

  // What the event loop does with the event it picks.
  function Handled(s: State, pick: Pick, raw: int, now: nat): State
    requires Ready(s)
  {
    match pick
    case PickMail => s
    case PickIdentify => s.(core := IdentifyTick(s.core, HAL_LED_3, now))
    case PickSample => Measured(s, raw, now)
    case PickNone => s
  }

  class TemperatureEndpoint {
    const hal: LedDriver
    var onOff: bool
    var identifyTime: uint16
    var current: int
    var idTimer: Timer
    var sampleTimer: Timer
    var mail: bool
    var inbox: nat

    ghost predicate Valid()
      reads this, hal, hal.table
    {
      hal.Valid()
    }

    ghost function Snapshot(): (s: State)
      requires Valid()
      reads this, hal, hal.table, hal.pins
      ensures Ready(s)
    {
      State(Core(onOff, identifyTime, idTimer, sampleTimer, mail, hal.State()), current)
    }

    constructor (hal: LedDriver)
      requires hal.Valid()
      ensures Valid() && this.hal == hal
      ensures Snapshot() == State(Core(false, 0, IDLE, IDLE, false, hal.State()), INVALID)
    {
      this.hal := hal;
      onOff, identifyTime, current, idTimer, sampleTimer, mail, inbox := false, 0, INVALID, IDLE, IDLE, false, 0;
    }

    // AT_ZCL_TEMP_OnOffCB
    method OnOffCommand(cmd: Command, now: nat)
      requires Valid()
      modifies this, hal, hal.table, hal.pins
      ensures Valid() && Snapshot() == OnOffCB(old(Snapshot()), cmd, now)
    {
      ghost var s := OnOffCB(Snapshot(), cmd, now);
      onOff := NextOnOff(onOff, cmd);
      Follow(now, Snapshot().core, s);
    }

    // The rest of it, once the new state is known, towards the state `s`.
    method Follow(now: nat, ghost c: Core, ghost s: State)
      requires Valid() && c == Snapshot().core
      requires s == State(OnOffChange(c, HAL_LED_3, now), if c.on then current else INVALID)
      modifies this, hal, hal.table, hal.pins
      ensures Valid() && Snapshot() == s
    {
      sampleTimer := ShowOnOff(hal, HAL_LED_3, onOff, sampleTimer, now, c);
      current := if onOff then current else INVALID;
    }

    // AT_ZCL_TEMP_IdentifyCB
    method IdentifyCommand(time: uint16, now: nat)
      requires Valid()
      modifies this, hal, hal.table, hal.pins
      ensures Valid() && Snapshot() == IdentifyCB(old(Snapshot()), time, now)
    {
      identifyTime := time;
      idTimer := ShowIdentify(hal, HAL_LED_3, identifyTime, onOff, idTimer, now, Snapshot().core);
    }

    // AT_ZCL_TEMP_BasicResetCB
    method BasicReset(now: nat)
      requires Valid()
      modifies this, hal, hal.table, hal.pins
      ensures Valid() && Snapshot() == BasicResetCB(old(Snapshot()), now)
    {
      OnOffCommand(CmdOff, now);
      IdentifyCommand(0, now);
    }

    // AT_ZCL_TEMP_EP_ENABLE
    method Enable(enable: bool, now: nat)
      requires Valid()
      modifies this, hal, hal.table, hal.pins
      ensures Valid() && Snapshot() == EpEnable(old(Snapshot()), enable, now)
    {
      if enable {
        OnOffCommand(CmdOn, now);
      } else {
        BasicReset(now);
      }
    }

    // Every message is released unread.
    method DrainMail()
      modifies this`inbox
      ensures inbox == 0
    {
      while inbox > 0 {
        inbox := inbox - 1;
      }
    }

    method IdentifyTimeout(now: nat)
      requires Valid()
      modifies this`identifyTime, this`idTimer, hal, hal.table, hal.pins
      ensures Valid() && Snapshot() == old(Snapshot()).(core := IdentifyTick(old(Snapshot()).core, HAL_LED_3, now))
    {
      if identifyTime > 0 {
        identifyTime := identifyTime - 1;
      }
      idTimer := ShowIdentify(hal, HAL_LED_3, identifyTime, onOff, idTimer, now, Snapshot().core);
    }

    // AT_ZCL_TEMP_event_loop; `raw` is what the thermometer reads.
    method EventLoop(events: bv16, raw: int, now: nat) returns (rest: bv16)
      requires Valid()
      modifies this, hal, hal.table, hal.pins
      ensures Valid() && Snapshot() == Handled(old(Snapshot()), PickOf(events), raw, now)
      ensures rest == RestOf(events)
      ensures PickOf(events) == PickMail ==> inbox == 0
    {
      if events & SYS_EVENT_MSG != 0 {
        DrainMail();
        return events ^ SYS_EVENT_MSG;
      }
      if events & IDENTIFY_TIMEOUT_EVT != 0 {
        IdentifyTimeout(now);
        return events ^ IDENTIFY_TIMEOUT_EVT;
      }
      if events & SAMPLE_EVT != 0 {
        current := Centi(raw);
        sampleTimer := sampleTimer.Start(now, MEASURE_MS);
        return events ^ SAMPLE_EVT;
      }
      return 0;
    }
  }

  // ----- runs

  datatype Event =
    | OnOffCmd(cmd: Command)
    | IdentifyCmd(time: uint16)
    | Reset
    | EnableCmd(enable: bool)
    | Mail
    | Tick(dt: nat)
    | Deliver(raw: int)
    | Hal(ev: H.Event)    // the LED engine at work for others, or for its own event

  datatype World = World(s: State, now: nat)

  predicate Legal(w: World) {
    Consistent(w.s.core, LED, w.now)
  }

  predicate Allowed(ev: Event) {
    ev.Hal? ==> Spares(ev.ev, LED)
  }

  function Delivered(s: State, raw: int, now: nat): State
    requires Ready(s)
  {
    var pick := PickOf(MaskOf(s.core));
    Handled(s.(core := Taken(s.core, pick)), pick, raw, now)
  }

  function Step(w: World, ev: Event): World
    requires Legal(w)
  {
    match ev
    case OnOffCmd(cmd) => w.(s := OnOffCB(w.s, cmd, w.now))
    case IdentifyCmd(time) => w.(s := IdentifyCB(w.s, time, w.now))
    case Reset => w.(s := BasicResetCB(w.s, w.now))
    case EnableCmd(enable) => w.(s := EpEnable(w.s, enable, w.now))
    case Mail => w.(s := w.s.(core := w.s.core.(mail := true)))
    case Tick(dt) => World(w.s.(core := Ticked(w.s.core, w.now + dt)), w.now + dt)
    case Deliver(raw) => w.(s := Delivered(w.s, raw, w.now))
    case Hal(h) => w.(s := w.s.(core := w.s.core.(hal := H.Step(H.World(w.s.core.hal, w.now), h).e)))
  }

  lemma ResetKeeps(s: State, now: nat)
    requires Consistent(s.core, LED, now)
    ensures Consistent(BasicResetCB(s, now).core, LED, now)
  {
    OnOffKeeps(s.core, CmdOff, HAL_LED_3, LED, now);
    var off := OnOffCB(s, CmdOff, now).core;
    IdentifyChangeKeeps(off.(identifyTime := 0), HAL_LED_3, LED, now);
  }

  lemma DeliveredKeeps(s: State, raw: int, now: nat)
    requires Consistent(s.core, LED, now)
    ensures Consistent(Delivered(s, raw, now).core, LED, now)
  {
    TakenExactly(s.core);
    var pick := PickOf(MaskOf(s.core));
    if pick == PickIdentify {
      var c := Taken(s.core, pick);
      var time := if c.identifyTime > 0 then c.identifyTime - 1 else 0;
      IdentifyChangeKeeps(c.(identifyTime := time), HAL_LED_3, LED, now);
    }
  }

  lemma StepKeeps(w: World, ev: Event)
    requires Legal(w) && Allowed(ev)
    ensures Legal(Step(w, ev))
  {
    match ev
    case OnOffCmd(cmd) => OnOffKeeps(w.s.core, cmd, HAL_LED_3, LED, w.now);
    case IdentifyCmd(time) => IdentifyChangeKeeps(w.s.core.(identifyTime := time), HAL_LED_3, LED, w.now);
    case Reset => ResetKeeps(w.s, w.now);
    case EnableCmd(enable) => OnOffKeeps(w.s.core, CmdOn, HAL_LED_3, LED, w.now); ResetKeeps(w.s, w.now);
    case Mail =>
    case Tick(dt) => TickedKeeps(w.s.core, LED, w.now, w.now + dt);
    case Deliver(raw) => DeliveredKeeps(w.s, raw, w.now);
    case Hal(h) => SparedStaysShown(H.World(w.s.core.hal, w.now), h, LED, w.s.core.on);
  }

  function Run(w: World, evs: seq<Event>): World
    requires Legal(w) && forall ev | ev in evs :: Allowed(ev)
    decreases |evs|
  {
    if evs == [] then w
    else
      assert evs[0] in evs;
      StepKeeps(w, evs[0]);
      Run(Step(w, evs[0]), evs[1..])
  }

  // Over every interleaving of commands, resets, enables, ticks, deliveries and
  // LED updates: with no identify time left LED 3 does not blink and shows the
  // On/Off state; with some left its timer is armed or its event pending; and
  // while the endpoint is on, so is the sampling timer.
  lemma {:induction false} AlwaysConsistent(w: World, evs: seq<Event>)
    requires Legal(w) && forall ev | ev in evs :: Allowed(ev)
    ensures Legal(Run(w, evs))
    ensures var c := Run(w, evs).s.core;
      && (c.identifyTime == 0 ==>
            !c.hal.leds[LED].blink && c.hal.leds[LED].on == c.hal.leds[LED].cached == c.hal.leds[LED].pin == c.on)
      && (c.identifyTime > 0 ==> c.idTimer.due.Some? || c.idTimer.pending)
      && (c.on ==> c.sampleTimer.due.Some? || c.sampleTimer.pending)
    decreases |evs|
  {
    if evs != [] {
      assert evs[0] in evs;
      StepKeeps(w, evs[0]);
      AlwaysConsistent(Step(w, evs[0]), evs[1..]);
    }
  }

  // The firmware starts in such a state.
  lemma BootLegal(now: nat)
    ensures Legal(World(State(Core(false, 0, IDLE, IDLE, false, HalInit(POWER_UP, now)), INVALID), now))
  {
    H.BootAlert(now);
    SetShows(POWER_UP, HAL_LED_ALL, LED, false, now);
  }

  // ----- the identify countdown

  predicate SetsIdentify(ev: Event) {
    ev.IdentifyCmd? || ev.Reset? || ev == EnableCmd(false)
  }

  // How many identify events a run handles.
  function IdentifyTicks(w: World, evs: seq<Event>): nat
    requires Legal(w) && forall ev | ev in evs :: Allowed(ev)
    decreases |evs|
  {
    if evs == [] then 0
    else
      assert evs[0] in evs;
      StepKeeps(w, evs[0]);
      (if evs[0].Deliver? && PickOf(MaskOf(w.s.core)) == PickIdentify then 1 else 0)
      + IdentifyTicks(Step(w, evs[0]), evs[1..])
  }

  // An identify time of t is down to zero after exactly t handled events,
  // whatever else happens meanwhile.
  lemma {:induction false} CountsDown(w: World, evs: seq<Event>)
    requires Legal(w) && forall ev | ev in evs :: Allowed(ev) && !SetsIdentify(ev)
    ensures var t, n := w.s.core.identifyTime, IdentifyTicks(w, evs);
      Run(w, evs).s.core.identifyTime == if n < t then t - n else 0
    decreases |evs|
  {
    if evs != [] {
      assert evs[0] in evs;
      StepKeeps(w, evs[0]);
      CountsDown(Step(w, evs[0]), evs[1..]);
    }
  }

  // ----- sampling

  predicate TurnsOn(w: World, ev: Event) {
    ev == OnOffCmd(CmdOn) || ev == EnableCmd(true) || (ev == OnOffCmd(CmdToggle) && !w.s.core.on)
  }

  predicate Silent(s: State) {
    !s.core.on && !s.core.sampleTimer.Live() && s.current == INVALID
  }

  predicate NeverTurnsOn(w: World, evs: seq<Event>)
    requires Legal(w) && forall ev | ev in evs :: Allowed(ev)
    decreases |evs|
  {
    evs == [] ||
    (assert evs[0] in evs; StepKeeps(w, evs[0]);
     !TurnsOn(w, evs[0]) && NeverTurnsOn(Step(w, evs[0]), evs[1..]))
  }

  // Off and neither armed nor pending: so it stays, with the reading invalid,
  // until something turns it on.
  lemma {:induction false} SilentUntilOn(w: World, evs: seq<Event>)
    requires Legal(w) && (forall ev | ev in evs :: Allowed(ev)) && NeverTurnsOn(w, evs)
    requires Silent(w.s)
    ensures Silent(Run(w, evs).s)
    decreases |evs|
  {
    if evs != [] {
      assert evs[0] in evs;
      StepKeeps(w, evs[0]);
      TakenExactly(w.s.core);
      SilentUntilOn(Step(w, evs[0]), evs[1..]);
    }
  }

  // OFF silences the endpoint exactly when no measure event is pending by then.
  lemma OffSilencesExactly(s: State, now: nat)
    requires Ready(s)
    ensures Silent(OnOffCB(s, CmdOff, now)) <==> !s.core.sampleTimer.pending
  {
  }

  predicate Switches(ev: Event) {
    ev.OnOffCmd? || ev.Reset? || ev.EnableCmd?
  }

  // And when one is, it re-arms itself: sampling goes on until the next command.
  lemma {:induction false} SamplingGoesOn(w: World, evs: seq<Event>)
    requires Legal(w) && forall ev | ev in evs :: Allowed(ev) && !Switches(ev)
    requires w.s.core.sampleTimer.Live()
    ensures Run(w, evs).s.core.sampleTimer.Live() && Run(w, evs).s.core.on == w.s.core.on
    decreases |evs|
  {
    if evs != [] {
      assert evs[0] in evs;
      StepKeeps(w, evs[0]);
      TakenExactly(w.s.core);
      SamplingGoesOn(Step(w, evs[0]), evs[1..]);
    }
  }

  // ----- what each event does, in figures

  lemma CommandActs(w: World, cmd: Command)
    requires Legal(w)
    ensures var c, s := w.s.core, Step(w, OnOffCmd(cmd)).s;
      && (s.core.on <==> cmd == CmdOn || (cmd == CmdToggle && !c.on))
      && |s.core.hal.leds| == 4 && Steady(s.core.hal.leds[2], s.core.on)
      && s.core.sampleTimer == Timer(if s.core.on then Some(w.now + 10) else None, c.sampleTimer.pending)
      && s.current == (if s.core.on then w.s.current else -0x8000)
      && s.core.identifyTime == c.identifyTime && s.core.idTimer == c.idTimer
  {
    OnOffActs(w.s.core, cmd, HAL_LED_3, 2, w.now);
  }

  // A reset, or a disabled endpoint, is off, dark, without a reading and without
  // a timer; an enabled one is on.
  lemma ResetActs(w: World)
    requires Legal(w)
    ensures var s := Step(w, Reset).s;
      && !s.core.on && s.core.identifyTime == 0 && s.current == -0x8000
      && |s.core.hal.leds| == 4 && Steady(s.core.hal.leds[2], false)
      && s.core.idTimer.due == None && s.core.sampleTimer.due == None
    ensures Step(w, EnableCmd(false)) == Step(w, Reset)
    ensures Step(w, EnableCmd(true)) == Step(w, OnOffCmd(CmdOn))
  {
    OnOffActs(w.s.core, CmdOff, HAL_LED_3, 2, w.now);
    IdentifyEnds(OnOffCB(w.s, CmdOff, w.now).core.(identifyTime := 0), HAL_LED_3, 2, w.now);
  }

  // A handled measure event stores 6.25 times the raw reading, cut to an integer
  // toward zero, and comes again a second later.
  lemma MeasureActs(w: World, raw: int)
    requires Legal(w) && PickOf(MaskOf(w.s.core)) == PickSample
    requires -5243 <= raw <= 5242
    ensures var s := Step(w, Deliver(raw)).s;
      && (0 <= raw ==> 0 <= 4 * s.current <= 25 * raw <= 4 * s.current + 3)
      && (raw <= 0 ==> 4 * s.current - 3 <= 25 * raw <= 4 * s.current <= 0)
      && s.core.sampleTimer == Timer(Some(w.now + 1000), false)
      && s.core.on == w.s.core.on && s.core.hal == w.s.core.hal
  {
    CentiCuts(raw);
  }

  lemma CentiCuts(raw: int)
    requires -5243 <= raw <= 5242
    ensures 0 <= raw ==> 0 <= 4 * Centi(raw) <= 25 * raw <= 4 * Centi(raw) + 3
    ensures raw <= 0 ==> 4 * Centi(raw) - 3 <= 25 * raw <= 4 * Centi(raw) <= 0
  {
  }

  // ----- identifying

  // The identify command with time to count, and each handled identify event that
  // leaves time, start the blink of LED 3 anew.
  lemma IdentifyActs(w: World, time: uint16)
    requires Legal(w) && 0 < time
    ensures var c := Step(w, IdentifyCmd(time)).s.core;
      && c.identifyTime == time && c.on == w.s.core.on
      && |c.hal.leds| == 4 && Identifying(c.hal.leds[2], w.now) && c.hal.timer.pending
      && c.idTimer == Timer(Some(w.now + 1000), w.s.core.idTimer.pending)
  {
    IdentifyBlinks(w.s.core.(identifyTime := time), HAL_LED_3, 2, w.now);
  }

  lemma IdentifyTickActs(w: World, raw: int)
    requires Legal(w) && PickOf(MaskOf(w.s.core)) == PickIdentify && 1 < w.s.core.identifyTime
    ensures var c := Step(w, Deliver(raw)).s.core;
      && c.identifyTime == w.s.core.identifyTime - 1
      && |c.hal.leds| == 4 && Identifying(c.hal.leds[2], w.now) && c.hal.timer.pending
      && c.idTimer == Timer(Some(w.now + 1000), false)
  {
    var c := Taken(w.s.core, PickIdentify);
    IdentifyBlinks(c.(identifyTime := c.identifyTime - 1), HAL_LED_3, 2, w.now);
  }

  predicate Restarts(w: World, ev: Event) {
    ev.IdentifyCmd? || (ev.Deliver? && PickOf(MaskOf(w.s.core)) == PickIdentify)
  }

  // An On/Off command, or the last update of the blink.
  predicate Stills(w: World, ev: Event)
    requires Legal(w)
  {
    || ev.OnOffCmd? || ev.Reset? || ev.EnableCmd?
    || (ev.Hal? && EndsBlink(H.World(w.s.core.hal, w.now), ev.ev, LED))
  }

  // Whether one of these came after the last change of the identify time;
  // `before` stands for a run with neither.
  predicate Stilled(w: World, evs: seq<Event>, before: bool)
    requires Legal(w) && forall ev | ev in evs :: Allowed(ev)
    decreases |evs|
  {
    if evs == [] then before
    else
      assert evs[0] in evs;
      StepKeeps(w, evs[0]);
      Stilled(Step(w, evs[0]), evs[1..], Stills(w, evs[0]) || (before && !Restarts(w, evs[0])))
  }

  predicate BlinksUnless(w: World, stilled: bool)
    requires Legal(w)
  {
    0 < w.s.core.identifyTime ==> (w.s.core.hal.leds[LED].blink <==> !stilled)
  }

  lemma StepBlinks(w: World, ev: Event, before: bool)
    requires Legal(w) && Allowed(ev) && BlinksUnless(w, before)
    ensures Legal(Step(w, ev))
    ensures BlinksUnless(Step(w, ev), Stills(w, ev) || (before && !Restarts(w, ev)))
  {
    StepKeeps(w, ev);
    match ev
    case OnOffCmd(cmd) => CommandActs(w, cmd);
    case IdentifyCmd(time) =>
      if 0 < time {
        IdentifyActs(w, time);
      }
    case Reset => ResetActs(w);
    case EnableCmd(enable) =>
      CommandActs(w, CmdOn);
      ResetActs(w);
    case Mail =>
    case Tick(dt) =>
    case Deliver(raw) =>
      TakenExactly(w.s.core);
      if PickOf(MaskOf(w.s.core)) == PickIdentify && 1 < w.s.core.identifyTime {
        IdentifyTickActs(w, raw);
      }
    case Hal(h) => SparedBlink(H.World(w.s.core.hal, w.now), h, LED);
  }

  // With identify time left, LED 3 blinks exactly unless an On/Off command or the
  // end of the blink has come since the identify time was last changed.
  lemma {:induction false} BlinksExactly(w: World, evs: seq<Event>, before: bool)
    requires Legal(w) && (forall ev | ev in evs :: Allowed(ev)) && BlinksUnless(w, before)
    ensures Legal(Run(w, evs))
    ensures 0 < Run(w, evs).s.core.identifyTime ==>
      (Run(w, evs).s.core.hal.leds[LED].blink <==> !Stilled(w, evs, before))
    decreases |evs|
  {
    if evs != [] {
      assert evs[0] in evs;
      StepBlinks(w, evs[0], before);
      BlinksExactly(Step(w, evs[0]), evs[1..], Stills(w, evs[0]) || (before && !Restarts(w, evs[0])));
    }
  }

  predicate Punctual(w: World, evs: seq<Event>)
    requires Legal(w) && forall ev | ev in evs :: Allowed(ev)
    decreases |evs|
  {
    evs == [] ||
    (assert evs[0] in evs; StepKeeps(w, evs[0]);
     (evs[0].Tick? ==> CountOnTime(w.s.core, w.now, evs[0].dt)) && Punctual(Step(w, evs[0]), evs[1..]))
  }

  lemma StepCounts(w: World, ev: Event, end: int)
    requires Legal(w) && Allowed(ev) && !SetsIdentify(ev) && CountsTo(w.s.core, w.now, end)
    requires ev.Tick? ==> CountOnTime(w.s.core, w.now, ev.dt)
    ensures CountsTo(Step(w, ev).s.core, Step(w, ev).now, end)
  {
    TakenExactly(w.s.core);
    match ev
    case Tick(dt) => TickCounts(w.s.core, w.now, dt, end);
    case Deliver(raw) =>
      if PickOf(MaskOf(w.s.core)) == PickIdentify {
        IdentifyTickCounts(w.s.core, HAL_LED_3, w.now, end);
      }
    case _ =>
  }

  lemma {:induction false} RunCounts(w: World, evs: seq<Event>, end: int)
    requires Legal(w) && (forall ev | ev in evs :: Allowed(ev) && !SetsIdentify(ev)) && Punctual(w, evs)
    requires CountsTo(w.s.core, w.now, end)
    ensures CountsTo(Run(w, evs).s.core, Run(w, evs).now, end)
    decreases |evs|
  {
    if evs != [] {
      assert evs[0] in evs;
      StepKeeps(w, evs[0]);
      StepCounts(w, evs[0], end);
      RunCounts(Step(w, evs[0]), evs[1..], end);
    }
  }

  // In a run on time, identifying for `time` seconds ends that many seconds after
  // the command: before, there is time left and its timer armed or its event
  // pending; the event handled right then ends it; afterwards none is left. (An
  // identify event still pending from before makes it one second less.)
  lemma IdentifyLasts(w: World, time: uint16, evs: seq<Event>)
    requires Legal(w) && 0 < time && forall ev | ev in evs :: Allowed(ev) && !SetsIdentify(ev)
    requires Legal(Step(w, IdentifyCmd(time))) && Punctual(Step(w, IdentifyCmd(time)), evs)
    ensures Legal(Run(Step(w, IdentifyCmd(time)), evs))
    ensures var r := Run(Step(w, IdentifyCmd(time)), evs);
      var end := w.now + 1000 * (time - if w.s.core.idTimer.pending then 1 else 0);
      && (r.now < end ==> 0 < r.s.core.identifyTime && r.s.core.idTimer.Live())
      && (end < r.now ==> r.s.core.identifyTime == 0)
      && (r.now == end && r.s.core.idTimer.pending ==>
            IdentifyTick(Taken(r.s.core, PickIdentify), HAL_LED_3, r.now).identifyTime == 0)
  {
    var end := w.now + 1000 * (time - if w.s.core.idTimer.pending then 1 else 0);
    IdentifyCounts(w.s.core, time, HAL_LED_3, w.now);
    var v := Step(w, IdentifyCmd(time));
    RunCounts(v, evs, end);
    AlwaysConsistent(v, evs);
    var r := Run(v, evs);
    if r.s.core.idTimer.pending {
      IdentifyTickCounts(r.s.core, HAL_LED_3, r.now, end);
    }
  }
}
