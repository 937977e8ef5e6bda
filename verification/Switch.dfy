// AT_ZCL_ONOFF_SWITCH.c: the endpoint that samples a switch while it is on and
// sends an On or Off command whenever the sample changes.

module Switch {
  import opened Osal
  import opened Sequences
  import opened HalLedModel
  import opened HalLedDriver
  import opened ZclEndpoint
  import C = HalLedCalls
  import H = HalLedRuns

  const HAL_LED_1: bv8 := 0x01
  const HAL_LED_2: bv8 := 0x02
  const LED := 1             // the index of LED 2
  const UPDATE_MS := 500
  const UNKNOWN: uint8 := 0xFF
  const ON_OFF_SWITCH_ACTIONS_0: uint8 := 0

  // What switch_status can return.
  type Sample = v: uint8 | v <= 2

  // The command sent to the bound devices.
  datatype Sent = SentOff | SentOn

  function CommandFor(action: uint8): Sent {
    if action == ON_OFF_SWITCH_ACTIONS_0 then SentOff else SentOn
  }

  datatype State = State(core: Core, action: uint8, sent: seq<Sent>)

  predicate Ready(s: State) {
    |s.core.hal.leds| == 4
  }

  // AT_ZCL_ONOFF_SWITCH_update: LED 1 shows the action.
  function Update(s: State, sw: Sample, now: nat): State
    requires Ready(s)
  {
    State(s.core.(hal := HalSet(s.core.hal, HAL_LED_1, OnMode(sw != ON_OFF_SWITCH_ACTIONS_0), now)), sw,
          if s.action != sw then s.sent + [CommandFor(sw)] else s.sent)
  }

  function OnOffCB(s: State, cmd: Command, now: nat): State
    requires Ready(s)
  {
    var c := OnOff(s.core, cmd, HAL_LED_2, now);
    State(c, if c.on then s.action else UNKNOWN, s.sent)
  }

  function IdentifyCB(s: State, time: uint16, now: nat): State
    requires Ready(s)
  {
    s.(core := Identify(s.core, time, HAL_LED_2, now))
  }

  function BasicResetCB(s: State, now: nat): State
    requires Ready(s)
  {
    IdentifyCB(OnOffCB(s, CmdOff, now), 0, now)
  }

  function EpEnable(s: State, enable: bool, now: nat): State
    requires Ready(s)
  {
    if enable then OnOffCB(s, CmdOn, now) else BasicResetCB(s, now)
  }

  function Updated(s: State, sw: Sample, now: nat): State
    requires Ready(s)
  {
    var u := Update(s, sw, now);
    u.(core := u.core.(sampleTimer := u.core.sampleTimer.Start(now, UPDATE_MS)))
  }

  function Handled(s: State, pick: Pick, sw: Sample, now: nat): State
    requires Ready(s)
  {
    match pick
    case PickMail => s
    case PickIdentify => s.(core := IdentifyTick(s.core, HAL_LED_2, now))
    case PickSample => Updated(s, sw, now)
    case PickNone => s
  }

  class SwitchEndpoint {
    const hal: LedDriver
    var onOff: bool
    var identifyTime: uint16
    var action: uint8
    var sent: seq<Sent>
    var idTimer: Timer
    var sampleTimer: Timer
    var mail: bool

    ghost predicate Valid()
      reads this, hal, hal.table
    {
      hal.Valid()
    }

    ghost function Snapshot(): (s: State)
      requires Valid()
      reads this, hal, hal.table, hal.pins
      ensures Ready(s)
    {
      State(Core(onOff, identifyTime, idTimer, sampleTimer, mail, hal.State()), action, sent)
    }

    constructor (hal: LedDriver)
      requires hal.Valid()
      ensures Valid() && this.hal == hal
      ensures Snapshot() == State(Core(false, 0, IDLE, IDLE, false, hal.State()), UNKNOWN, [])
    {
      this.hal := hal;
      onOff, identifyTime, action, sent, idTimer, sampleTimer, mail := false, 0, UNKNOWN, [], IDLE, IDLE, false;
    }

    // AT_ZCL_ONOFF_SWITCH_update
    method UpdateSwitch(sw: Sample, now: nat)
      requires Valid()
      modifies this`action, this`sent, hal, hal.table, hal.pins
      ensures Valid() && Snapshot() == Update(old(Snapshot()), sw, now)
    {
      ghost var s := Update(Snapshot(), sw, now);
      TakeSample(sw);
      ShowAction(now, s);
    }

    // LED 1 shows the action, towards the state `s`.
    method ShowAction(now: nat, ghost s: State)
      requires Valid()
      requires s == Snapshot().(core := s.core)
      requires s.core == Snapshot().core.(
        hal := HalSet(hal.State(), HAL_LED_1, OnMode(action != ON_OFF_SWITCH_ACTIONS_0), now))
      modifies hal, hal.table, hal.pins
      ensures Valid() && Snapshot() == s
    {
      var _ := hal.Set(HAL_LED_1,
                       if action == ON_OFF_SWITCH_ACTIONS_0 then HAL_LED_MODE_OFF else HAL_LED_MODE_ON, now);
    }

    // A sample that differs from the action becomes the action and is sent.
    method TakeSample(sw: Sample)
      modifies this`action, this`sent
      ensures action == sw
      ensures sent == if old(action) != sw then old(sent) + [CommandFor(sw)] else old(sent)
    {
      if action != sw {
        action := sw;
        if action == ON_OFF_SWITCH_ACTIONS_0 {
          sent := sent + [SentOff];
        } else {
          sent := sent + [SentOn];
        }
      }
    }

    // AT_ZCL_ONOFF_SWITCH_OnOffCB
    method OnOffCommand(cmd: Command, now: nat)
      requires Valid()
      modifies this, hal, hal.table, hal.pins
      ensures Valid() && Snapshot() == OnOffCB(old(Snapshot()), cmd, now)
    {
      ghost var s := OnOffCB(Snapshot(), cmd, now);
      onOff := NextOnOff(onOff, cmd);
      Follow(now, Snapshot().core, s);
    }

    // The rest of it, once the new state is known, towards the state `s`.
    method Follow(now: nat, ghost c: Core, ghost s: State)
      requires Valid() && c == Snapshot().core
      requires s == State(OnOffChange(c, HAL_LED_2, now), if c.on then action else UNKNOWN, sent)
      modifies this, hal, hal.table, hal.pins
      ensures Valid() && Snapshot() == s
    {
      sampleTimer := ShowOnOff(hal, HAL_LED_2, onOff, sampleTimer, now, c);
      action := if onOff then action else UNKNOWN;
    }

    // AT_ZCL_ONOFF_SWITCH_IdentifyCB
    method IdentifyCommand(time: uint16, now: nat)
      requires Valid()
      modifies this, hal, hal.table, hal.pins
      ensures Valid() && Snapshot() == IdentifyCB(old(Snapshot()), time, now)
    {
      identifyTime := time;
      idTimer := ShowIdentify(hal, HAL_LED_2, identifyTime, onOff, idTimer, now, Snapshot().core);
    }

    // AT_ZCL_ONOFF_SWITCH_BasicResetCB
    method BasicReset(now: nat)
      requires Valid()
      modifies this, hal, hal.table, hal.pins
      ensures Valid() && Snapshot() == BasicResetCB(old(Snapshot()), now)
    {
      OnOffCommand(CmdOff, now);
      IdentifyCommand(0, now);
    }

    // AT_ZCL_ONOFF_SWITCH_EP_ENABLE
    method Enable(enable: bool, now: nat)
      requires Valid()
      modifies this, hal, hal.table, hal.pins
      ensures Valid() && Snapshot() == EpEnable(old(Snapshot()), enable, now)
    {
      if enable {
        OnOffCommand(CmdOn, now);
      } else {
        BasicReset(now);
      }
    }

    method IdentifyTimeout(now: nat)
      requires Valid()
      modifies this`identifyTime, this`idTimer, hal, hal.table, hal.pins
      ensures Valid() && Snapshot() == old(Snapshot()).(core := IdentifyTick(old(Snapshot()).core, HAL_LED_2, now))
    {
      if identifyTime > 0 {
        identifyTime := identifyTime - 1;
      }
      idTimer := ShowIdentify(hal, HAL_LED_2, identifyTime, onOff, idTimer, now, Snapshot().core);
    }

    // AT_ZCL_ONOFF_SWITCH_event_loop; `sw` is what the switch reads.
    method EventLoop(events: bv16, sw: Sample, now: nat) returns (rest: bv16)
      requires Valid()
      modifies this, hal, hal.table, hal.pins
      ensures Valid() && Snapshot() == Handled(old(Snapshot()), PickOf(events), sw, now)
      ensures rest == RestOf(events)
    {
      if events & SYS_EVENT_MSG != 0 {
        return events ^ SYS_EVENT_MSG;
      }
      if events & IDENTIFY_TIMEOUT_EVT != 0 {
        IdentifyTimeout(now);
        return events ^ IDENTIFY_TIMEOUT_EVT;
      }
      if events & SAMPLE_EVT != 0 {
        UpdateSwitch(sw, now);
        sampleTimer := sampleTimer.Start(now, UPDATE_MS);
        return events ^ SAMPLE_EVT;
      }
      return 0;
    }
  }

  // ----- runs

  datatype Event =
    | OnOffCmd(cmd: Command)
    | IdentifyCmd(time: uint16)
    | Reset
    | EnableCmd(enable: bool)
    | Mail
    | Tick(dt: nat)
    | Deliver(sw: Sample)
    | Hal(ev: H.Event)    // the LED engine at work for others, or for its own event

  datatype World = World(s: State, now: nat)

  function Delivered(s: State, sw: Sample, now: nat): State
    requires Ready(s)
  {
    var pick := PickOf(MaskOf(s.core));
    Handled(s.(core := Taken(s.core, pick)), pick, sw, now)
  }

  predicate Running(w: World) {
    Proper(w.s.core.hal)
  }

  function Step(w: World, ev: Event): World
    requires Running(w)
  {
    match ev
    case OnOffCmd(cmd) => w.(s := OnOffCB(w.s, cmd, w.now))
    case IdentifyCmd(time) => w.(s := IdentifyCB(w.s, time, w.now))
    case Reset => w.(s := BasicResetCB(w.s, w.now))
    case EnableCmd(enable) => w.(s := EpEnable(w.s, enable, w.now))
    case Mail => w.(s := w.s.(core := w.s.core.(mail := true)))
    case Tick(dt) => World(w.s.(core := Ticked(w.s.core, w.now + dt)), w.now + dt)
    case Deliver(sw) => w.(s := Delivered(w.s, sw, w.now))
    case Hal(h) => w.(s := w.s.(core := w.s.core.(hal := H.Step(H.World(w.s.core.hal, w.now), h).e)))
  }

  lemma ResetRuns(s: State, now: nat)
    requires Proper(s.core.hal)
    ensures Proper(OnOffCB(s, CmdOff, now).core.hal) && Proper(BasicResetCB(s, now).core.hal)
  {
    SetProper(s.core.hal, HAL_LED_2, false, now);
    IdentifyChangeProper(OnOffCB(s, CmdOff, now).core.(identifyTime := 0), HAL_LED_2, now);
  }

  lemma DeliveredRuns(s: State, sw: Sample, now: nat)
    requires Proper(s.core.hal)
    ensures Proper(Delivered(s, sw, now).core.hal)
  {
    var pick := PickOf(MaskOf(s.core));
    var c := Taken(s.core, pick);
    SetProper(s.core.hal, HAL_LED_1, sw != ON_OFF_SWITCH_ACTIONS_0, now);
    var time := if c.identifyTime > 0 then c.identifyTime - 1 else 0;
    IdentifyChangeProper(c.(identifyTime := time), HAL_LED_2, now);
  }

  lemma StepRuns(w: World, ev: Event)
    requires Running(w)
    ensures Running(Step(w, ev))
  {
    match ev
    case OnOffCmd(cmd) => SetProper(w.s.core.hal, HAL_LED_2, Switched(w.s.core.on, cmd), w.now);
    case IdentifyCmd(time) => IdentifyChangeProper(w.s.core.(identifyTime := time), HAL_LED_2, w.now);
    case Reset => ResetRuns(w.s, w.now);
    case EnableCmd(enable) =>
      SetProper(w.s.core.hal, HAL_LED_2, true, w.now);
      ResetRuns(w.s, w.now);
    case Mail =>
    case Tick(dt) =>
    case Deliver(sw) => DeliveredRuns(w.s, sw, w.now);
    case Hal(h) => H.StepProper(H.World(w.s.core.hal, w.now), h);
  }

  function Run(w: World, evs: seq<Event>): World
    requires Running(w)
    decreases |evs|
  {
    if evs == [] then w
    else
      StepRuns(w, evs[0]);
      Run(Step(w, evs[0]), evs[1..])
  }

  // What matters to the sending of commands: samples taken, and switchings off.
  datatype Mark = Took(sw: Sample) | WentOff

  function MarkOf(w: World, ev: Event): seq<Mark> {
    match ev
    case OnOffCmd(cmd) => if Switched(w.s.core.on, cmd) then [] else [WentOff]
    case Reset => [WentOff]
    case EnableCmd(enable) => if enable then [] else [WentOff]
    case Deliver(sw) => if PickOf(MaskOf(w.s.core)) == PickSample then [Took(sw)] else []
    case _ => []
  }

  function Marks(w: World, evs: seq<Event>): seq<Mark>
    requires Running(w)
    decreases |evs|
  {
    if evs == [] then []
    else
      StepRuns(w, evs[0]);
      MarkOf(w, evs[0]) + Marks(Step(w, evs[0]), evs[1..])
  }

  // The samples that differ from the mark before them, as commands: repeats are
  // left out, and a switching off starts afresh.
  predicate Fresh(marks: seq<Mark>, i: nat)
    requires i < |marks|
  {
    marks[i].Took? && (i == 0 || marks[i - 1] != marks[i])
  }

  function Changes(marks: seq<Mark>): seq<Sent> {
    if marks == [] then []
    else
      var i := |marks| - 1;
      Changes(marks[..i]) + if Fresh(marks, i) then [CommandFor(marks[i].sw)] else []
  }

  function LastAction(marks: seq<Mark>): uint8 {
    if marks != [] && marks[|marks| - 1].Took? then marks[|marks| - 1].sw else UNKNOWN
  }

  lemma ChangesStep(marks: seq<Mark>, m: Mark)
    ensures Changes(marks + [m]) ==
      Changes(marks) + if m.Took? && LastAction(marks) != m.sw then [CommandFor(m.sw)] else []
    ensures LastAction(marks + [m]) == if m.Took? then m.sw else UNKNOWN
  {
    assert (marks + [m])[..|marks|] == marks;
    if marks != [] && marks[|marks| - 1].Took? {
    } else if m.Took? {
      assert UNKNOWN != m.sw;
    }
  }

  lemma ResetMarks(s: State, now: nat)
    requires Ready(s)
    ensures BasicResetCB(s, now).action == UNKNOWN && BasicResetCB(s, now).sent == s.sent
  {
  }

  lemma StepMarks(w: World, ev: Event, marks: seq<Mark>, base: seq<Sent>)
    requires Running(w)
    requires w.s.action == LastAction(marks) && w.s.sent == base + Changes(marks)
    ensures var all := marks + MarkOf(w, ev);
      Step(w, ev).s.action == LastAction(all) && Step(w, ev).s.sent == base + Changes(all)
  {
    var m := MarkOf(w, ev);
    ResetMarks(w.s, w.now);
    if m == [] {
      assert marks + m == marks;
    } else {
      assert m == [m[0]];
      ChangesStep(marks, m[0]);
    }
  }

  lemma {:induction false} RunMarks(w: World, evs: seq<Event>, marks: seq<Mark>, base: seq<Sent>)
    requires Running(w)
    requires w.s.action == LastAction(marks) && w.s.sent == base + Changes(marks)
    ensures var all := marks + Marks(w, evs);
      Run(w, evs).s.action == LastAction(all) && Run(w, evs).s.sent == base + Changes(all)
    decreases |evs|
  {
    if evs == [] {
      Units(marks);
    } else {
      var v := Step(w, evs[0]);
      StepRuns(w, evs[0]);
      StepMarks(w, evs[0], marks, base);
      RunMarks(v, evs[1..], marks + MarkOf(w, evs[0]), base);
      Assoc(marks, MarkOf(w, evs[0]), Marks(v, evs[1..]));
    }
  }

  // The commands that a run sends are its samples with the repeats left out,
  // counting from the last switching off.
  lemma SendsChanges(w: World, evs: seq<Event>)
    requires Running(w) && w.s.action == UNKNOWN
    ensures Run(w, evs).s.sent == w.s.sent + Changes(Marks(w, evs))
    ensures Run(w, evs).s.action == LastAction(Marks(w, evs))
  {
    assert w.s.sent + [] == w.s.sent;
    RunMarks(w, evs, [], w.s.sent);
    assert [] + Marks(w, evs) == Marks(w, evs);
  }

  // A sample since the last switching off: then the last command agrees with it.
  lemma {:induction false} LastCommandAgrees(marks: seq<Mark>)
    requires LastAction(marks) != UNKNOWN
    ensures Changes(marks) != [] && Changes(marks)[|Changes(marks)| - 1] == CommandFor(LastAction(marks))
    decreases |marks|
  {
    var i := |marks| - 1;
    if !Fresh(marks, i) {
      LastCommandAgrees(marks[..i]);
    }
  }

  // ----- the commands, told from the samples

  // The samples that are sent: those that differ from the one before, the first,
  // and the first after each switching off.
  function FreshSamples(marks: seq<Mark>): seq<Sample> {
    if marks == [] then []
    else
      var i := |marks| - 1;
      FreshSamples(marks[..i]) + if Fresh(marks, i) then [marks[i].sw] else []
  }

  lemma {:induction false} ChangesAre(marks: seq<Mark>)
    ensures |Changes(marks)| == |FreshSamples(marks)|
    ensures forall i | 0 <= i < |Changes(marks)| ::
        && (Changes(marks)[i] == SentOff <==> FreshSamples(marks)[i] == 0)
        && (Changes(marks)[i] == SentOn <==> FreshSamples(marks)[i] == 1 || FreshSamples(marks)[i] == 2)
    decreases |marks|
  {
    if marks != [] {
      ChangesAre(marks[..|marks| - 1]);
    }
  }

  // The i-th command of a run is Off when the i-th fresh sample is 0, and On when
  // it is 1 or 2.
  lemma CommandsFollowSamples(w: World, evs: seq<Event>, i: nat)
    requires Running(w) && w.s.action == 0xFF
    requires i < |FreshSamples(Marks(w, evs))|
    ensures |Run(w, evs).s.sent| == |w.s.sent| + |FreshSamples(Marks(w, evs))|
    ensures var sample, command := FreshSamples(Marks(w, evs))[i], Run(w, evs).s.sent[|w.s.sent| + i];
      && (command == SentOff <==> sample == 0)
      && (command == SentOn <==> sample == 1 || sample == 2)
  {
    SendsChanges(w, evs);
    ChangesAre(Marks(w, evs));
  }

  lemma LastOfSum(a: seq<Sent>, b: seq<Sent>)
    requires b != []
    ensures (a + b)[|a + b| - 1] == b[|b| - 1]
  {
  }

  // In every run, with a sample since the last switching off: the last command
  // sent is Off when the action is 0, and On when it is 1 or 2.
  lemma LastCommandIs(w: World, evs: seq<Event>, sent: seq<Sent>, action: uint8)
    requires Running(w) && w.s.action == 0xFF
    requires sent == Run(w, evs).s.sent && action == Run(w, evs).s.action && action != 0xFF
    ensures |w.s.sent| < |sent|
    ensures sent[|sent| - 1] == SentOff <==> action == 0
    ensures sent[|sent| - 1] == SentOn <==> action == 1 || action == 2
  {
    var marks := Marks(w, evs);
    SendsChanges(w, evs);
    LastCommandAgrees(marks);
    LastOfSum(w.s.sent, Changes(marks));
    TookAction(marks);
  }

  lemma TookAction(marks: seq<Mark>)
    ensures LastAction(marks) != 0xFF ==> LastAction(marks) <= 2
  {
  }

  // ----- sampling

  lemma {:induction false} OnMeansSampling(w: World, evs: seq<Event>)
    requires Running(w) && (w.s.core.on ==> w.s.core.sampleTimer.Live())
    ensures Run(w, evs).s.core.on ==> Run(w, evs).s.core.sampleTimer.Live()
    decreases |evs|
  {
    if evs != [] {
      TakenExactly(w.s.core);
      StepRuns(w, evs[0]);
      OnMeansSampling(Step(w, evs[0]), evs[1..]);
    }
  }

  // An update lights LED 1 exactly for an action other than 0.
  lemma UpdateShows(s: State, sw: Sample, now: nat)
    requires Ready(s) && H.Legal(H.World(s.core.hal, now))
    ensures Shown(Update(s, sw, now).core.hal.leds[0], sw != 0)
  {
    SetShows(s.core.hal, HAL_LED_1, 0, sw != ON_OFF_SWITCH_ACTIONS_0, now);
  }

  // ----- LED 2

  lemma ResetConsistent(s: State, now: nat)
    requires Consistent(s.core, LED, now)
    ensures Consistent(BasicResetCB(s, now).core, LED, now)
  {
    OnOffKeeps(s.core, CmdOff, HAL_LED_2, LED, now);
    IdentifyChangeKeeps(OnOffCB(s, CmdOff, now).core.(identifyTime := 0), HAL_LED_2, LED, now);
  }

  // A sample drives LED 1 and leaves LED 2 alone.
  lemma UpdatedConsistent(s: State, sw: Sample, now: nat)
    requires H.Legal(H.World(s.core.hal, now)) && (s.core.identifyTime > 0 ==> s.core.idTimer.Live())
    requires s.core.identifyTime == 0 ==> Shown(s.core.hal.leds[LED], s.core.on)
    ensures Consistent(Updated(s, sw, now).core, LED, now)
  {
    var mode := OnMode(sw != ON_OFF_SWITCH_ACTIONS_0);
    SparedStaysShown(H.World(s.core.hal, now), H.Set(HAL_LED_1, mode), LED, s.core.on);
  }

  lemma DeliveredConsistent(s: State, sw: Sample, now: nat)
    requires Consistent(s.core, LED, now)
    ensures Consistent(Delivered(s, sw, now).core, LED, now)
  {
    TakenExactly(s.core);
    var pick := PickOf(MaskOf(s.core));
    var c := Taken(s.core, pick);
    if pick == PickIdentify {
      var time := if c.identifyTime > 0 then c.identifyTime - 1 else 0;
      IdentifyChangeKeeps(c.(identifyTime := time), HAL_LED_2, LED, now);
    } else if pick == PickSample {
      UpdatedConsistent(s.(core := c), sw, now);
    }
  }

  predicate Allowed(ev: Event) {
    ev.Hal? ==> Spares(ev.ev, LED)
  }

  lemma StepConsistent(w: World, ev: Event)
    requires Consistent(w.s.core, LED, w.now) && Allowed(ev)
    ensures Consistent(Step(w, ev).s.core, LED, Step(w, ev).now)
  {
    match ev
    case OnOffCmd(cmd) => OnOffKeeps(w.s.core, cmd, HAL_LED_2, LED, w.now);
    case IdentifyCmd(time) => IdentifyChangeKeeps(w.s.core.(identifyTime := time), HAL_LED_2, LED, w.now);
    case Reset => ResetConsistent(w.s, w.now);
    case EnableCmd(enable) =>
      OnOffKeeps(w.s.core, CmdOn, HAL_LED_2, LED, w.now);
      ResetConsistent(w.s, w.now);
    case Mail =>
    case Tick(dt) => TickedKeeps(w.s.core, LED, w.now, w.now + dt);
    case Deliver(sw) => DeliveredConsistent(w.s, sw, w.now);
    case Hal(h) => SparedStaysShown(H.World(w.s.core.hal, w.now), h, LED, w.s.core.on);
  }

  // As for the temperature endpoint, as long as nothing else uses LED 2: with no
  // identify time left it does not blink and shows the On/Off state, and each
  // timer that is needed is armed or its event pending.
  lemma {:induction false} AlwaysConsistent(w: World, evs: seq<Event>)
    requires Consistent(w.s.core, LED, w.now) && forall ev | ev in evs :: Allowed(ev)
    ensures Consistent(Run(w, evs).s.core, LED, Run(w, evs).now)
    decreases |evs|
  {
    if evs != [] {
      StepConsistent(w, evs[0]);
      AlwaysConsistent(Step(w, evs[0]), evs[1..]);
    }
  }

  // ----- what each event does, in figures

  lemma CommandActs(w: World, cmd: Command)
    requires Consistent(w.s.core, LED, w.now)
    ensures var c, s := w.s.core, Step(w, OnOffCmd(cmd)).s;
      && (s.core.on <==> cmd == CmdOn || (cmd == CmdToggle && !c.on))
      && |s.core.hal.leds| == 4 && Steady(s.core.hal.leds[1], s.core.on)
      && s.core.sampleTimer == Timer(if s.core.on then Some(w.now + 10) else None, c.sampleTimer.pending)
      && s.action == (if s.core.on then w.s.action else 0xFF) && s.sent == w.s.sent
      && s.core.identifyTime == c.identifyTime && s.core.idTimer == c.idTimer
  {
    OnOffActs(w.s.core, cmd, HAL_LED_2, 1, w.now);
  }

  lemma ResetActs(w: World)
    requires Consistent(w.s.core, LED, w.now)
    ensures var s := Step(w, Reset).s;
      && !s.core.on && s.core.identifyTime == 0 && s.action == 0xFF && s.sent == w.s.sent
      && |s.core.hal.leds| == 4 && Steady(s.core.hal.leds[1], false)
      && s.core.idTimer.due == None && s.core.sampleTimer.due == None
    ensures Step(w, EnableCmd(false)) == Step(w, Reset)
    ensures Step(w, EnableCmd(true)) == Step(w, OnOffCmd(CmdOn))
  {
    OnOffActs(w.s.core, CmdOff, HAL_LED_2, 1, w.now);
    IdentifyEnds(OnOffCB(w.s, CmdOff, w.now).core.(identifyTime := 0), HAL_LED_2, 1, w.now);
  }

  // A handled sample is taken, sent if it is new, shown on LED 1, and comes again
  // half a second later.
  lemma SampleActs(w: World, sw: Sample)
    requires Consistent(w.s.core, LED, w.now) && PickOf(MaskOf(w.s.core)) == PickSample
    ensures var s := Step(w, Deliver(sw)).s;
      && s.action == sw
      && s.sent == (if w.s.action == sw then w.s.sent else w.s.sent + [if sw == 0 then SentOff else SentOn])
      && s.core.sampleTimer == Timer(Some(w.now + 500), false)
      && |s.core.hal.leds| == 4 && Steady(s.core.hal.leds[0], sw != 0)
      && s.core.hal.leds[1] == w.s.core.hal.leds[1] && s.core.on == w.s.core.on
  {
    C.OnOffExactly(w.s.core.hal, HAL_LED_1, w.now, 0);
    C.OnOffExactly(w.s.core.hal, HAL_LED_1, w.now, 1);
  }

  // ----- identifying

  // As for the temperature endpoint, on LED 2.
  lemma IdentifyActs(w: World, time: uint16)
    requires Consistent(w.s.core, LED, w.now) && 0 < time
    ensures var c := Step(w, IdentifyCmd(time)).s.core;
      && c.identifyTime == time && c.on == w.s.core.on
      && |c.hal.leds| == 4 && Identifying(c.hal.leds[1], w.now) && c.hal.timer.pending
      && c.idTimer == Timer(Some(w.now + 1000), w.s.core.idTimer.pending)
  {
    IdentifyBlinks(w.s.core.(identifyTime := time), HAL_LED_2, 1, w.now);
  }

  lemma IdentifyTickActs(w: World, sw: Sample)
    requires Consistent(w.s.core, LED, w.now)
    requires PickOf(MaskOf(w.s.core)) == PickIdentify && 1 < w.s.core.identifyTime
    ensures var c := Step(w, Deliver(sw)).s.core;
      && c.identifyTime == w.s.core.identifyTime - 1
      && |c.hal.leds| == 4 && Identifying(c.hal.leds[1], w.now) && c.hal.timer.pending
      && c.idTimer == Timer(Some(w.now + 1000), false)
  {
    var c := Taken(w.s.core, PickIdentify);
    IdentifyBlinks(c.(identifyTime := c.identifyTime - 1), HAL_LED_2, 1, w.now);
  }

  predicate SetsIdentify(ev: Event) {
    ev.IdentifyCmd? || ev.Reset? || ev == EnableCmd(false)
  }

  predicate Restarts(w: World, ev: Event) {
    ev.IdentifyCmd? || (ev.Deliver? && PickOf(MaskOf(w.s.core)) == PickIdentify)
  }

  // An On/Off command, or the last update of the blink.
  predicate Stills(w: World, ev: Event)
    requires Running(w)
  {
    || ev.OnOffCmd? || ev.Reset? || ev.EnableCmd?
    || (ev.Hal? && EndsBlink(H.World(w.s.core.hal, w.now), ev.ev, LED))
  }

  // Whether one of these came after the last change of the identify time.
  predicate Stilled(w: World, evs: seq<Event>, before: bool)
    requires Running(w)
    decreases |evs|
  {
    if evs == [] then before
    else
      StepRuns(w, evs[0]);
      Stilled(Step(w, evs[0]), evs[1..], Stills(w, evs[0]) || (before && !Restarts(w, evs[0])))
  }

  predicate BlinksUnless(w: World, stilled: bool)
    requires Running(w)
  {
    0 < w.s.core.identifyTime ==> (w.s.core.hal.leds[LED].blink <==> !stilled)
  }

  lemma StepBlinks(w: World, ev: Event, before: bool)
    requires Consistent(w.s.core, LED, w.now) && Allowed(ev) && BlinksUnless(w, before)
    ensures Running(Step(w, ev))
    ensures BlinksUnless(Step(w, ev), Stills(w, ev) || (before && !Restarts(w, ev)))
  {
    StepRuns(w, ev);
    match ev
    case OnOffCmd(cmd) => CommandActs(w, cmd);
    case IdentifyCmd(time) =>
      if 0 < time {
        IdentifyActs(w, time);
      }
    case Reset => ResetActs(w);
    case EnableCmd(enable) =>
      CommandActs(w, CmdOn);
      ResetActs(w);
    case Mail =>
    case Tick(dt) =>
    case Deliver(sw) => DeliverBlinks(w, sw, before);
    case Hal(h) => SparedBlink(H.World(w.s.core.hal, w.now), h, LED);
  }

  lemma DeliverBlinks(w: World, sw: Sample, before: bool)
    requires Consistent(w.s.core, LED, w.now) && BlinksUnless(w, before)
    ensures Running(Step(w, Deliver(sw)))
    ensures BlinksUnless(Step(w, Deliver(sw)), before && !Restarts(w, Deliver(sw)))
  {
    StepRuns(w, Deliver(sw));
    TakenExactly(w.s.core);
    if PickOf(MaskOf(w.s.core)) == PickSample {
      SampleActs(w, sw);
    } else if PickOf(MaskOf(w.s.core)) == PickIdentify && 1 < w.s.core.identifyTime {
      IdentifyTickActs(w, sw);
    }
  }

  // With identify time left, LED 2 blinks exactly unless an On/Off command or the
  // end of the blink has come since the identify time was last changed.
  lemma {:induction false} BlinksExactly(w: World, evs: seq<Event>, before: bool)
    requires Consistent(w.s.core, LED, w.now) && (forall ev | ev in evs :: Allowed(ev)) && BlinksUnless(w, before)
    ensures Running(Run(w, evs))
    ensures 0 < Run(w, evs).s.core.identifyTime ==>
      (Run(w, evs).s.core.hal.leds[LED].blink <==> !Stilled(w, evs, before))
    decreases |evs|
  {
    if evs != [] {
      assert evs[0] in evs;
      StepConsistent(w, evs[0]);
      StepBlinks(w, evs[0], before);
      BlinksExactly(Step(w, evs[0]), evs[1..], Stills(w, evs[0]) || (before && !Restarts(w, evs[0])));
    }
  }

  predicate Punctual(w: World, evs: seq<Event>)
    requires Running(w)
    decreases |evs|
  {
    evs == [] ||
    (StepRuns(w, evs[0]);
     (evs[0].Tick? ==> CountOnTime(w.s.core, w.now, evs[0].dt)) && Punctual(Step(w, evs[0]), evs[1..]))
  }

  lemma StepCounts(w: World, ev: Event, end: int)
    requires Running(w) && !SetsIdentify(ev) && CountsTo(w.s.core, w.now, end)
    requires ev.Tick? ==> CountOnTime(w.s.core, w.now, ev.dt)
    ensures CountsTo(Step(w, ev).s.core, Step(w, ev).now, end)
  {
    TakenExactly(w.s.core);
    match ev
    case Tick(dt) => TickCounts(w.s.core, w.now, dt, end);
    case Deliver(sw) =>
      if PickOf(MaskOf(w.s.core)) == PickIdentify {
        IdentifyTickCounts(w.s.core, HAL_LED_2, w.now, end);
      }
    case _ =>
  }

  lemma {:induction false} RunCounts(w: World, evs: seq<Event>, end: int)
    requires Running(w) && (forall ev | ev in evs :: !SetsIdentify(ev)) && Punctual(w, evs)
    requires CountsTo(w.s.core, w.now, end)
    ensures Running(Run(w, evs)) && CountsTo(Run(w, evs).s.core, Run(w, evs).now, end)
    decreases |evs|
  {
    if evs != [] {
      assert evs[0] in evs;
      StepRuns(w, evs[0]);
      StepCounts(w, evs[0], end);
      RunCounts(Step(w, evs[0]), evs[1..], end);
    }
  }

  // In a run on time, identifying for `time` seconds ends that many seconds after
  // the command, or one second less if an identify event was still pending.
  lemma IdentifyLasts(w: World, time: uint16, evs: seq<Event>)
    requires Running(w) && 0 < time && forall ev | ev in evs :: !SetsIdentify(ev)
    requires Running(Step(w, IdentifyCmd(time))) && Punctual(Step(w, IdentifyCmd(time)), evs)
    ensures Running(Run(Step(w, IdentifyCmd(time)), evs))
    ensures var r := Run(Step(w, IdentifyCmd(time)), evs);
      var end := w.now + 1000 * (time - if w.s.core.idTimer.pending then 1 else 0);
      && (r.now < end ==> 0 < r.s.core.identifyTime && r.s.core.idTimer.Live())
      && (end < r.now ==> r.s.core.identifyTime == 0)
      && (r.now == end && r.s.core.idTimer.pending ==>
            IdentifyTick(Taken(r.s.core, PickIdentify), HAL_LED_2, r.now).identifyTime == 0)
  {
    var end := w.now + 1000 * (time - if w.s.core.idTimer.pending then 1 else 0);
    IdentifyCounts(w.s.core, time, HAL_LED_2, w.now);
    var v := Step(w, IdentifyCmd(time));
    RunCounts(v, evs, end);
    var r := Run(v, evs);
    if r.s.core.idTimer.pending {
      IdentifyTickCounts(r.s.core, HAL_LED_2, r.now, end);
    }
  }
}
