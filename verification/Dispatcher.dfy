// AT_App_ProcessEvent: one event of a mask per call, highest priority first, and
// a message loop that hands out and releases everything that is queued.

module Dispatcher {
  import opened Osal
  import opened Sequences

  const SYS_EVENT_MSG: bv16 := 0x8000
  const AT_ENTRY_EVENT: bv16 := 0x4000
  const AT_RESET_EVENT: bv16 := 0x2000
  const AT_POWER_SAVING_EXP_EVENT: bv16 := 0x1000
  const AT_DEV_REPORT_EVENT: bv16 := 0x0800

  const AT_AF_ENDPOINT: uint8 := 204

  datatype DevState = EndDevice | Router | Coordinator | Hold | Init | OtherState

  // What a queued message is, by its event and what the handler looks at.
  datatype Kind =
    | AfIncoming(endPoint: uint8)
    | ZclIncoming
    | StateChange(status: DevState)
    | AtCommand
    | ZdoCallback
    | KeyChange(state: uint8, keys: uint8)
    | OtherEvent

  datatype Message = Message(id: nat, kind: Kind)

  datatype Action =
    | OnOffOutput(id: nat)
    | AfMessage(id: nat)
    | ZclMessage(id: nat)
    | LedOn
    | LedFlash
    | ArmReport(delay: nat)
    | RunCommand(id: nat)
    | ZdoMessage(id: nat)
    | Keys(state: uint8, keys: uint8)
    | Release(id: nat)
    | BootEndpoints
    | ClearStartup
    | ExperimentStep
    | Reset
    | Report

  // What handling one message does before it is released. `outputEp` is the
  // endpoint number of the on/off output application.
  function Handling(m: Message, outputEp: uint8): seq<Action> {
    match m.kind
    case AfIncoming(ep) =>
      if ep == outputEp then [OnOffOutput(m.id)] else if ep == AT_AF_ENDPOINT then [AfMessage(m.id)] else []
    case ZclIncoming => [ZclMessage(m.id)]
    case StateChange(status) =>
      if status.EndDevice? || status.Router? || status.Coordinator? then [LedOn, ArmReport(100)]
      else if status.Hold? || status.Init? then [LedFlash]
      else []
    case AtCommand => [RunCommand(m.id)]
    case ZdoCallback => [ZdoMessage(m.id)]
    case KeyChange(state, keys) => [Keys(state, keys)]
    case OtherEvent => []
  }

  function Drained(inbox: seq<Message>, outputEp: uint8): seq<Action> {
    if inbox == [] then []
    else Handling(inbox[0], outputEp) + [Release(inbox[0].id)] + Drained(inbox[1..], outputEp)
  }

  // What one call does, and the events it leaves.
  datatype Outcome = Outcome(actions: seq<Action>, inbox: seq<Message>, rest: bv16)

  function Call(events: bv16, inbox: seq<Message>, outputEp: uint8): Outcome {
    if events & SYS_EVENT_MSG != 0 then Outcome(Drained(inbox, outputEp), [], Left(events))
    else Outcome(Chosen(events), inbox, Left(events))
  }

  function Chosen(events: bv16): seq<Action> {
    if events & AT_ENTRY_EVENT != 0 then [BootEndpoints, ClearStartup]
    else if events & AT_POWER_SAVING_EXP_EVENT != 0 then [ExperimentStep]
    else if events & AT_RESET_EVENT != 0 then [Reset]
    else if events & AT_DEV_REPORT_EVENT != 0 then [Report]
    else []
  }

  function Left(events: bv16): bv16 {
    if events & SYS_EVENT_MSG != 0 then events ^ SYS_EVENT_MSG
    else if events & AT_ENTRY_EVENT != 0 then events ^ AT_ENTRY_EVENT
    else if events & AT_POWER_SAVING_EXP_EVENT != 0 then events ^ AT_POWER_SAVING_EXP_EVENT
    else if events & AT_RESET_EVENT != 0 then 0
    else if events & AT_DEV_REPORT_EVENT != 0 then events ^ AT_DEV_REPORT_EVENT
    else 0
  }

  class App {
    const outputEp: uint8
    var inbox: seq<Message>
    var trace: seq<Action>

    constructor (outputEp: uint8)
      ensures this.outputEp == outputEp && inbox == [] && trace == []
    {
      this.outputEp, inbox, trace := outputEp, [], [];
    }

    // osal_msg_receive
    method Receive() returns (m: Option<Message>)
      modifies this`inbox
      ensures old(inbox) == [] ==> m == None && inbox == []
      ensures old(inbox) != [] ==> m == Some(old(inbox)[0]) && inbox == old(inbox)[1..]
    {
      m := None;
      if inbox != [] {
        m := Some(inbox[0]);
        inbox := inbox[1..];
      }
    }

    method Handle(m: Message)
      modifies this`trace
      ensures trace == old(trace) + Handling(m, outputEp)
    {
      match m.kind {
        case AfIncoming(ep) =>
          if ep == outputEp {
            trace := trace + [OnOffOutput(m.id)];
          } else if ep == AT_AF_ENDPOINT {
            trace := trace + [AfMessage(m.id)];
          }
        case ZclIncoming =>
          trace := trace + [ZclMessage(m.id)];
        case StateChange(status) =>
          if status.EndDevice? || status.Router? || status.Coordinator? {
            ghost var before := trace;
            trace := trace + [LedOn];
            trace := trace + [ArmReport(100)];
            assert trace == before + [LedOn, ArmReport(100)];
          } else if status.Hold? || status.Init? {
            trace := trace + [LedFlash];
          }
        case AtCommand =>
          trace := trace + [RunCommand(m.id)];
        case ZdoCallback =>
          trace := trace + [ZdoMessage(m.id)];
        case KeyChange(state, keys) =>
          trace := trace + [Keys(state, keys)];
        case OtherEvent =>
      }
    }

    // AT_App_ProcessEvent
    method ProcessEvent(events: bv16) returns (rest: bv16)
      modifies this
      ensures var out := Call(events, old(inbox), outputEp);
        trace == old(trace) + out.actions && inbox == out.inbox && rest == out.rest
    {
      if events & SYS_EVENT_MSG != 0 {
        var msg := Receive();
        while msg.Some?
          invariant trace + Drained(if msg.Some? then [msg.value] + inbox else inbox, outputEp)
                 == old(trace) + Drained(old(inbox), outputEp)
          invariant msg.None? ==> inbox == []
          decreases |inbox| + if msg.Some? then 1 else 0
        {
          ghost var before, m, queue := trace, msg.value, inbox;
          Handle(msg.value);
          trace := trace + [Release(msg.value.id)];
          DrainStep(before, m, queue, outputEp);
          msg := Receive();
          assert (if msg.Some? then [msg.value] + inbox else inbox) == queue;
        }
        return events ^ SYS_EVENT_MSG;
      } else if events & AT_ENTRY_EVENT != 0 {
        ghost var before := trace;
        trace := trace + [BootEndpoints];
        trace := trace + [ClearStartup];
        assert trace == before + [BootEndpoints, ClearStartup];
        return events ^ AT_ENTRY_EVENT;
      } else if events & AT_POWER_SAVING_EXP_EVENT != 0 {
        trace := trace + [ExperimentStep];
        return events ^ AT_POWER_SAVING_EXP_EVENT;
      } else if events & AT_RESET_EVENT != 0 {
        trace := trace + [Reset];
      } else if events & AT_DEV_REPORT_EVENT != 0 {
        trace := trace + [Report];
        return events ^ AT_DEV_REPORT_EVENT;
      }
      return 0;
    }
  }

  lemma DrainStep(before: seq<Action>, m: Message, queue: seq<Message>, outputEp: uint8)
    ensures before + Drained([m] + queue, outputEp)
         == before + Handling(m, outputEp) + [Release(m.id)] + Drained(queue, outputEp)
  {
    assert ([m] + queue)[1..] == queue;
  }

  // ----- every message, in order, released once

  function Releases(trace: seq<Action>): seq<nat> {
    if trace == [] then []
    else (if trace[0].Release? then [trace[0].id] else []) + Releases(trace[1..])
  }

  function Ids(inbox: seq<Message>): seq<nat> {
    seq(|inbox|, i requires 0 <= i < |inbox| => inbox[i].id)
  }

  lemma {:induction false} ReleasesJoin(a: seq<Action>, b: seq<Action>)
    ensures Releases(a + b) == Releases(a) + Releases(b)
  {
    if a == [] {
      Units(b);
      Units(Releases(b));
    } else {
      ReleasesJoin(a[1..], b);
      TailOfSum(a, b);
      Assoc(if a[0].Release? then [a[0].id] else [], Releases(a[1..]), Releases(b));
    }
  }

  lemma HandlingReleasesNothing(m: Message, outputEp: uint8)
    ensures Releases(Handling(m, outputEp)) == []
  {
    var h := Handling(m, outputEp);
    if |h| == 2 {
      assert Releases(h[1..]) == [];
    }
  }

  // Draining the queue releases its messages in order, each exactly once.
  lemma {:induction false} ReleasedInOrder(inbox: seq<Message>, outputEp: uint8)
    ensures Releases(Drained(inbox, outputEp)) == Ids(inbox)
  {
    if inbox != [] {
      var m, rest := inbox[0], Drained(inbox[1..], outputEp);
      HandlingReleasesNothing(m, outputEp);
      ReleasedInOrder(inbox[1..], outputEp);
      ReleasesJoin(Handling(m, outputEp) + [Release(m.id)], rest);
      ReleasesJoin(Handling(m, outputEp), [Release(m.id)]);
      assert Ids(inbox) == [m.id] + Ids(inbox[1..]);
    }
  }

  // ----- what each kind of message makes a call do

  predicate Joined(status: DevState) {
    status == EndDevice || status == Router || status == Coordinator
  }

  predicate Searching(status: DevState) {
    status == Hold || status == Init
  }

  // A call with one message in the queue, by its kind: a device that joined
  // lights LED 2 and reports 100 ms later, one that searches flashes it, incoming
  // data goes to the application of its endpoint, and each of the others to its
  // own handler. Then the message is released.
  lemma MessageActions(events: bv16, m: Message, outputEp: uint8)
    requires events & SYS_EVENT_MSG != 0
    ensures var done, id := Call(events, [m], outputEp).actions, m.id;
      match m.kind
      case AfIncoming(ep) =>
        && (ep == outputEp ==> done == [OnOffOutput(id), Release(id)])
        && (ep != outputEp && ep == 204 ==> done == [AfMessage(id), Release(id)])
        && (ep != outputEp && ep != 204 ==> done == [Release(id)])
      case ZclIncoming => done == [ZclMessage(id), Release(id)]
      case StateChange(status) =>
        && (Joined(status) ==> done == [LedOn, ArmReport(100), Release(id)])
        && (Searching(status) ==> done == [LedFlash, Release(id)])
        && (!Joined(status) && !Searching(status) ==> done == [Release(id)])
      case AtCommand => done == [RunCommand(id), Release(id)]
      case ZdoCallback => done == [ZdoMessage(id), Release(id)]
      case KeyChange(state, keys) => done == [Keys(state, keys), Release(id)]
      case OtherEvent => done == [Release(id)]
  {
    Units(Handling(m, outputEp) + [Release(m.id)]);
    assert Drained([m], outputEp) == Handling(m, outputEp) + [Release(m.id)] + Drained([], outputEp);
  }

  // Several messages do what each of them does, one after another.
  lemma {:induction false} QueueActions(a: seq<Message>, b: seq<Message>, outputEp: uint8)
    ensures Drained(a + b, outputEp) == Drained(a, outputEp) + Drained(b, outputEp)
  {
    if a == [] {
      Units(b);
      Units(Drained(b, outputEp));
    } else {
      QueueActions(a[1..], b, outputEp);
      TailOfSum(a, b);
      Assoc(Handling(a[0], outputEp) + [Release(a[0].id)], Drained(a[1..], outputEp), Drained(b, outputEp));
    }
  }

  // ----- feeding the dispatcher its own result

  predicate Cleared(rest: bv16, events: bv16) {
    rest < events && rest & events == rest
  }

  // Each call clears at least one bit and sets none.
  lemma CallClears(events: bv16)
    requires events != 0
    ensures Cleared(Left(events), events)
  {
    if Left(events) == 0 {
      ZeroBelow(events);
    } else if events & SYS_EVENT_MSG != 0 {
      BitClears(events, 0x8000);
    } else {
      LowClears(events);
    }
  }

  lemma LowClears(events: bv16)
    requires events & SYS_EVENT_MSG == 0 && Left(events) != 0
    ensures Cleared(Left(events), events)
  {
    if events & AT_ENTRY_EVENT != 0 {
      EntryClears(events);
    } else {
      LowestClears(events);
    }
  }

  lemma LowestClears(events: bv16)
    requires events & SYS_EVENT_MSG == 0 && events & AT_ENTRY_EVENT == 0 && Left(events) != 0
    ensures Cleared(Left(events), events)
  {
    if events & AT_POWER_SAVING_EXP_EVENT != 0 {
      ExperimentClears(events);
    } else {
      ReportClears(events);
    }
  }

  lemma EntryClears(events: bv16)
    requires events & SYS_EVENT_MSG == 0 && events & AT_ENTRY_EVENT != 0
    ensures Cleared(Left(events), events)
  {
    BitClears(events, 0x4000);
  }

  lemma ExperimentClears(events: bv16)
    requires events & SYS_EVENT_MSG == 0 && events & AT_ENTRY_EVENT == 0 && events & AT_POWER_SAVING_EXP_EVENT != 0
    ensures Cleared(Left(events), events)
  {
    BitClears(events, 0x1000);
  }

  lemma ReportClears(events: bv16)
    requires events & SYS_EVENT_MSG == 0 && events & AT_ENTRY_EVENT == 0 && events & AT_POWER_SAVING_EXP_EVENT == 0
    requires Left(events) != 0
    ensures Cleared(Left(events), events)
  {
    BitClears(events, 0x0800);
  }

  lemma ZeroBelow(events: bv16)
    requires events != 0
    ensures Cleared(0, events)
  {
  }

  lemma BitClears(events: bv16, bit: bv16)
    requires bit == 0x8000 || bit == 0x4000 || bit == 0x1000 || bit == 0x0800
    requires events & bit != 0
    ensures Cleared(events ^ bit, events)
  {
    Below(events, bit);
  }

  lemma Below(events: bv16, bit: bv16)
    requires bit == 0x8000 || bit == 0x4000 || bit == 0x1000 || bit == 0x0800
    requires events & bit != 0
    ensures events ^ bit < events
  {
  }

  function Loop(events: bv16, inbox: seq<Message>, outputEp: uint8): seq<Action>
    decreases events
  {
    if events == 0 then []
    else
      var out := Call(events, inbox, outputEp);
      CallClears(events);
      out.actions + Loop(out.rest, out.inbox, outputEp)
  }

  function Share(events: bv16, bit: bv16, actions: seq<Action>): seq<Action> {
    if events & bit != 0 then actions else []
  }

  lemma OthersStay(events: bv16, bit: bv16, other: bv16)
    requires bit & other == 0
    ensures (events ^ bit) & other == events & other
  {
  }

  lemma FourParts(a: seq<Action>, b: seq<Action>, c: seq<Action>, d: seq<Action>)
    ensures a + (b + c + d) == a + b + c + d
    ensures a == [] ==> a + b + c + d == b + c + d
  {
    Units(b);
  }

  // What the whole loop does to a mask without its top events.
  lemma LoopLow(events: bv16, inbox: seq<Message>, outputEp: uint8)
    requires events & 0xD000 == 0
    ensures Loop(events, inbox, outputEp) ==
      if events & AT_RESET_EVENT != 0 then [Reset] else Share(events, AT_DEV_REPORT_EVENT, [Report])
  {
    if events != 0 {
      var out := Call(events, inbox, outputEp);
      CallClears(events);
      if out.rest != 0 {
        assert out.rest & 0xF800 == 0;
        assert Call(out.rest, inbox, outputEp) == Outcome([], inbox, 0);
        assert Loop(0, inbox, outputEp) == [];
      }
    }
  }

  lemma LoopMiddle(events: bv16, inbox: seq<Message>, outputEp: uint8)
    requires events & 0xC000 == 0
    ensures Loop(events, inbox, outputEp) ==
      Share(events, AT_POWER_SAVING_EXP_EVENT, [ExperimentStep])
      + (if events & AT_RESET_EVENT != 0 then [Reset] else Share(events, AT_DEV_REPORT_EVENT, [Report]))
  {
    var rest := events ^ AT_POWER_SAVING_EXP_EVENT;
    if events & AT_POWER_SAVING_EXP_EVENT != 0 {
      assert rest & 0xD000 == 0;
      OthersStay(events, AT_POWER_SAVING_EXP_EVENT, AT_RESET_EVENT);
      OthersStay(events, AT_POWER_SAVING_EXP_EVENT, AT_DEV_REPORT_EVENT);
      LoopLow(rest, inbox, outputEp);
    } else {
      assert events & 0xD000 == 0;
      LoopLow(events, inbox, outputEp);
    }
  }

  lemma LoopUpper(events: bv16, inbox: seq<Message>, outputEp: uint8)
    requires events & 0x8000 == 0
    ensures Loop(events, inbox, outputEp) ==
      Share(events, AT_ENTRY_EVENT, [BootEndpoints, ClearStartup])
      + Share(events, AT_POWER_SAVING_EXP_EVENT, [ExperimentStep])
      + (if events & AT_RESET_EVENT != 0 then [Reset] else Share(events, AT_DEV_REPORT_EVENT, [Report]))
  {
    var rest := events ^ AT_ENTRY_EVENT;
    if events & AT_ENTRY_EVENT != 0 {
      assert rest & 0xC000 == 0;
      OthersStay(events, AT_ENTRY_EVENT, AT_POWER_SAVING_EXP_EVENT);
      OthersStay(events, AT_ENTRY_EVENT, AT_RESET_EVENT);
      OthersStay(events, AT_ENTRY_EVENT, AT_DEV_REPORT_EVENT);
      LoopMiddle(rest, inbox, outputEp);
    } else {
      assert events & 0xC000 == 0;
      LoopMiddle(events, inbox, outputEp);
    }
  }

  // Whatever the mask and the queue: the loop ends, having handled each event
  // once, in the order message, entry, experiment, report; a reset comes before
  // the report and drops it.
  lemma LoopHandles(events: bv16, inbox: seq<Message>, outputEp: uint8)
    ensures Loop(events, inbox, outputEp) ==
      Share(events, SYS_EVENT_MSG, Drained(inbox, outputEp))
      + Share(events, AT_ENTRY_EVENT, [BootEndpoints, ClearStartup])
      + Share(events, AT_POWER_SAVING_EXP_EVENT, [ExperimentStep])
      + (if events & AT_RESET_EVENT != 0 then [Reset] else Share(events, AT_DEV_REPORT_EVENT, [Report]))
  {
    var rest := events ^ SYS_EVENT_MSG;
    if events & SYS_EVENT_MSG != 0 {
      assert rest & 0x8000 == 0;
      OthersStay(events, SYS_EVENT_MSG, AT_ENTRY_EVENT);
      OthersStay(events, SYS_EVENT_MSG, AT_POWER_SAVING_EXP_EVENT);
      OthersStay(events, SYS_EVENT_MSG, AT_RESET_EVENT);
      OthersStay(events, SYS_EVENT_MSG, AT_DEV_REPORT_EVENT);
      LoopUpper(rest, [], outputEp);
    } else {
      LoopUpper(events, inbox, outputEp);
    }
    FourParts(Share(events, SYS_EVENT_MSG, Drained(inbox, outputEp)),
      Share(events, AT_ENTRY_EVENT, [BootEndpoints, ClearStartup]),
      Share(events, AT_POWER_SAVING_EXP_EVENT, [ExperimentStep]),
      if events & AT_RESET_EVENT != 0 then [Reset] else Share(events, AT_DEV_REPORT_EVENT, [Report]));
  }
}
