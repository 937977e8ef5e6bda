// The "power saving experiment" of AT_App.c: a command starts it, a timer event
// sends one packet and re-arms itself, the event after the last packet reports
// the end, and a stop command drops what is left.

module Experiment {
  import opened Osal

  // AT_AF_PSE_info_ing and AT_AF_PSE_info_end packets, and what the end of an
  // experiment and each of its steps show on LED 1 and on the serial line.
  datatype Action =
    | Ing(addr: uint16)
    | End(addr: uint16)
    | ToggleLed1
    | DarkLed1
    | Say(text: string)

  datatype Status = NoError | IsActive | ParaError

  datatype State = State(nwkAddr: uint16, count: uint16, interval: uint16, timer: Timer, trace: seq<Action>)

  const START_DELAY := 500
  const FINISHED := "Power Saving Experiment finished"

  function StatusOf(s: State, count: uint16, interval: uint16): Status {
    if s.count != 0 then IsActive else if count == 0 || interval == 0 then ParaError else NoError
  }

  function Start(s: State, addr: uint16, count: uint16, interval: uint16, now: nat): State {
    if StatusOf(s, count, interval) != NoError then s
    else s.(nwkAddr := addr, count := count, interval := interval, timer := s.timer.Start(now, START_DELAY))
  }

  function Stop(s: State): State {
    s.(count := 0)
  }

  function Fire(s: State, now: nat): State {
    if s.count == 0 then
      s.(interval := 0, trace := s.trace + [End(s.nwkAddr), DarkLed1, Say(FINISHED)])
    else
      s.(count := s.count - 1,
         trace := s.trace + [ToggleLed1, Ing(s.nwkAddr)],
         timer := s.timer.Start(now, s.interval))
  }

  // The global record AT_App_Cmd_POWER_SAVING_EXP and its event.
  class PowerSavingExperiment {
    var nwkAddr: uint16
    var count: uint16
    var interval: uint16
    var timer: Timer
    var trace: seq<Action>

    function Snapshot(): State
      reads this
    {
      State(nwkAddr, count, interval, timer, trace)
    }

    constructor ()
      ensures Snapshot() == State(0, 0, 0, IDLE, [])
    {
      nwkAddr, count, interval, timer, trace := 0, 0, 0, IDLE, [];
    }

    // AT_App_Power_saving_exp
    method Begin(addr: uint16, packets: uint16, period: uint16, now: nat) returns (status: Status)
      modifies this
      ensures Snapshot() == Start(old(Snapshot()), addr, packets, period, now)
      ensures status == StatusOf(old(Snapshot()), packets, period)
    {
      if count != 0 {
        return IsActive;
      }
      if packets == 0 || period == 0 {
        return ParaError;
      }
      count := packets;
      nwkAddr := addr;
      interval := period;
      timer := timer.Start(now, START_DELAY);
      return NoError;
    }

    // AT_App_process_Power_Saving_Exp_Evt
    method ProcessEvent(now: nat)
      modifies this
      ensures Snapshot() == Fire(old(Snapshot()), now)
    {
      ghost var before := trace;
      if count == 0 {
        interval := 0;
        trace := trace + [End(nwkAddr)];
        trace := trace + [DarkLed1];
        trace := trace + [Say(FINISHED)];
        assert trace == before + [End(nwkAddr), DarkLed1, Say(FINISHED)];
        return;
      }
      trace := trace + [ToggleLed1];
      count := count - 1;
      trace := trace + [Ing(nwkAddr)];
      assert trace == before + [ToggleLed1, Ing(nwkAddr)];
      timer := timer.Start(now, interval);
    }

    // AT_App_Power_saving_exp_stop
    method Halt()
      modifies this
      ensures Snapshot() == Stop(old(Snapshot()))
    {
      count := 0;
    }
  }

  // ----- runs

  datatype Event =
    | StartCmd(addr: uint16, count: uint16, interval: uint16)
    | StopCmd
    | Tick(dt: nat)
    | Deliver

  datatype World = World(s: State, now: nat)

  function Step(w: World, ev: Event): World {
    match ev
    case StartCmd(addr, count, interval) => w.(s := Start(w.s, addr, count, interval, w.now))
    case StopCmd => w.(s := Stop(w.s))
    case Tick(dt) => World(w.s.(timer := w.s.timer.Tick(w.now + dt)), w.now + dt)
    case Deliver => if w.s.timer.pending then w.(s := Fire(w.s.(timer := w.s.timer.Take()), w.now)) else w
  }

  function Run(w: World, evs: seq<Event>): World
    decreases |evs|
  {
    if evs == [] then w else Run(Step(w, evs[0]), evs[1..])
  }

  predicate Accepts(w: World, ev: Event) {
    ev.StartCmd? && StatusOf(w.s, ev.count, ev.interval) == NoError
  }

  // What the accepted commands of a run asked for, how many they were, and what
  // its stop commands threw away.
  function Asked(w: World, evs: seq<Event>): nat
    decreases |evs|
  {
    if evs == [] then 0
    else (if Accepts(w, evs[0]) then evs[0].count else 0) + Asked(Step(w, evs[0]), evs[1..])
  }

  function Starts(w: World, evs: seq<Event>): nat
    decreases |evs|
  {
    if evs == [] then 0
    else (if Accepts(w, evs[0]) then 1 else 0) + Starts(Step(w, evs[0]), evs[1..])
  }

  function Dropped(w: World, evs: seq<Event>): nat
    decreases |evs|
  {
    if evs == [] then 0
    else (if evs[0].StopCmd? then w.s.count else 0) + Dropped(Step(w, evs[0]), evs[1..])
  }

  function Ings(trace: seq<Action>): nat {
    if trace == [] then 0 else Ings(trace[..|trace| - 1]) + if trace[|trace| - 1].Ing? then 1 else 0
  }

  function Ends(trace: seq<Action>): nat {
    if trace == [] then 0 else Ends(trace[..|trace| - 1]) + if trace[|trace| - 1].End? then 1 else 0
  }

  lemma {:induction false} CountsAppend(a: seq<Action>, b: seq<Action>)
    ensures Ings(a + b) == Ings(a) + Ings(b) && Ends(a + b) == Ends(a) + Ends(b)
    decreases |b|
  {
    if b == [] {
      assert a + b == a;
    } else {
      CountsAppend(a, b[..|b| - 1]);
      assert (a + b)[..|a + b| - 1] == a + b[..|b| - 1];
    }
  }

  lemma FireCounts(s: State, now: nat)
    ensures Ings(Fire(s, now).trace) == Ings(s.trace) + if s.count == 0 then 0 else 1
    ensures Ends(Fire(s, now).trace) == Ends(s.trace) + if s.count == 0 then 1 else 0
  {
    var last := [End(s.nwkAddr), DarkLed1, Say(FINISHED)];
    var one := [ToggleLed1, Ing(s.nwkAddr)];
    CountsAppend(s.trace, last);
    CountsAppend(s.trace, one);
    assert last[..2] == [End(s.nwkAddr), DarkLed1] && last[..2][..1] == [End(s.nwkAddr)] && one[..1] == [ToggleLed1];
    assert Ings([ToggleLed1]) == 0 && Ends([ToggleLed1]) == 0;
    assert Ings([End(s.nwkAddr)]) == 0 && Ends([End(s.nwkAddr)]) == 1;
    assert Ings([End(s.nwkAddr), DarkLed1]) == 0 && Ends([End(s.nwkAddr), DarkLed1]) == 1;
  }

  // What was asked for is sent, still to be sent, or was dropped.
  lemma {:induction false} Conservation(w: World, evs: seq<Event>)
    ensures var r := Run(w, evs).s;
      w.s.count + Asked(w, evs) + Ings(w.s.trace) == Ings(r.trace) + r.count + Dropped(w, evs)
    decreases |evs|
  {
    if evs != [] {
      FireCounts(w.s.(timer := w.s.timer.Take()), w.now);
      Conservation(Step(w, evs[0]), evs[1..]);
    }
  }

  predicate Sane(s: State) {
    s.count > 0 ==> s.interval > 0 && s.timer.Live()
  }

  // A running experiment always has its timer armed or its event pending.
  lemma {:induction false} AlwaysSane(w: World, evs: seq<Event>)
    requires Sane(w.s)
    ensures Sane(Run(w, evs).s)
    decreases |evs|
  {
    if evs != [] {
      AlwaysSane(Step(w, evs[0]), evs[1..]);
    }
  }

  function Tokens(t: Timer): nat {
    (if t.due.Some? then 1 else 0) + if t.pending then 1 else 0
  }

  // Every reported end, and every one still to come, has its own accepted start.
  lemma {:induction false} EndsHaveStarts(w: World, evs: seq<Event>)
    ensures var r := Run(w, evs).s;
      Ends(r.trace) + Tokens(r.timer) <= Ends(w.s.trace) + Tokens(w.s.timer) + Starts(w, evs)
    decreases |evs|
  {
    if evs != [] {
      FireCounts(w.s.(timer := w.s.timer.Take()), w.now);
      EndsHaveStarts(Step(w, evs[0]), evs[1..]);
    }
  }

  // ----- an experiment that nothing disturbs

  predicate Undisturbed(evs: seq<Event>) {
    forall ev | ev in evs :: ev.Tick? || ev.Deliver?
  }

  function Packets(addr: uint16, n: nat): seq<Action> {
    if n == 0 then [] else Packets(addr, n - 1) + [ToggleLed1, Ing(addr)]
  }

  // `n` packets in, out of `total`, after the trace `base`.
  predicate Underway(s: State, base: seq<Action>, addr: uint16, total: nat) {
    && s.nwkAddr == addr && s.count <= total
    && if s.count > 0 then s.timer.Live() && s.trace == base + Packets(addr, total - s.count)
       else if s.timer.Live() then Tokens(s.timer) == 1 && s.trace == base + Packets(addr, total)
       else s.trace == base + Packets(addr, total) + [End(addr), DarkLed1, Say(FINISHED)]
  }

  lemma UnderwayStep(w: World, ev: Event, base: seq<Action>, addr: uint16, total: nat)
    requires Underway(w.s, base, addr, total) && (ev.Tick? || ev.Deliver?)
    ensures Underway(Step(w, ev).s, base, addr, total)
  {
    if ev.Deliver? && w.s.timer.pending && w.s.count > 0 {
      var n := total - w.s.count;
      assert base + Packets(addr, n) + [ToggleLed1, Ing(addr)] == base + Packets(addr, n + 1);
    }
  }

  // Nothing but its own timer touches it: it stays underway.
  lemma {:induction false} UndisturbedExperiment(w: World, evs: seq<Event>, base: seq<Action>, addr: uint16, total: nat)
    requires Undisturbed(evs) && Underway(w.s, base, addr, total)
    ensures Underway(Run(w, evs).s, base, addr, total)
    decreases |evs|
  {
    if evs != [] {
      assert evs[0] in evs;
      UnderwayStep(w, evs[0], base, addr, total);
      UndisturbedExperiment(Step(w, evs[0]), evs[1..], base, addr, total);
    }
  }

  // Events handed to the handler, and those still to come.
  function Deliveries(w: World, evs: seq<Event>): nat
    decreases |evs|
  {
    if evs == [] then 0
    else (if evs[0].Deliver? && w.s.timer.pending then 1 else 0) + Deliveries(Step(w, evs[0]), evs[1..])
  }

  function Remaining(s: State): nat {
    s.count + if s.timer.Live() then 1 else 0
  }

  // It falls silent after exactly one event more than it has packets.
  lemma {:induction false} UndisturbedLength(w: World, evs: seq<Event>, base: seq<Action>, addr: uint16, total: nat)
    requires Undisturbed(evs) && Underway(w.s, base, addr, total)
    ensures Deliveries(w, evs) + Remaining(Run(w, evs).s) == Remaining(w.s)
    decreases |evs|
  {
    if evs != [] {
      assert evs[0] in evs;
      UnderwayStep(w, evs[0], base, addr, total);
      UndisturbedLength(Step(w, evs[0]), evs[1..], base, addr, total);
    }
  }

  // Whatever came before: an accepted start of n packets sends n packets and
  // then one end, all to its address, and nothing more once it falls
  // silent, which is after n + 1 events.
  lemma AcceptedExperiment(w: World, addr: uint16, count: uint16, interval: uint16, evs: seq<Event>)
    requires StatusOf(w.s, count, interval) == NoError && Undisturbed(evs)
    ensures var r := Run(Step(w, StartCmd(addr, count, interval)), evs).s;
      && Underway(r, w.s.trace, addr, count)
      && (r.timer.Live() <==> Deliveries(Step(w, StartCmd(addr, count, interval)), evs) < count + 1)
      && (!r.timer.Live() ==>
            r.trace == w.s.trace + Packets(addr, count) + [End(addr), DarkLed1, Say(FINISHED)])
  {
    var v := Step(w, StartCmd(addr, count, interval));
    assert w.s.trace + Packets(addr, 0) == w.s.trace;
    UndisturbedExperiment(v, evs, w.s.trace, addr, count);
    UndisturbedLength(v, evs, w.s.trace, addr, count);
  }

  // ----- commands that change little

  lemma RefusedExactly(s: State, addr: uint16, count: uint16, interval: uint16, now: nat)
    ensures StatusOf(s, count, interval) == IsActive <==> 0 < s.count
    ensures StatusOf(s, count, interval) == ParaError <==> s.count == 0 && (count == 0 || interval == 0)
    ensures StatusOf(s, count, interval) != NoError ==> Start(s, addr, count, interval, now) == s
  {
  }

  // A stop forgets the packets left, and nothing else: an event that is still to
  // come reports an end.
  lemma StopExactly(s: State)
    ensures var r := Stop(s);
      r.count == 0 && r.timer == s.timer && r.interval == s.interval && r.nwkAddr == s.nwkAddr && r.trace == s.trace
  {
  }

  // ----- an experiment on time

  // The clock stops at a deadline until its event has been handled.
  predicate OnTime(w: World, ev: Event) {
    ev.Tick? ==> ev.dt == 0 || (!w.s.timer.pending && (w.s.timer.due.Some? ==> w.now + ev.dt <= w.s.timer.due.value))
  }

  predicate Punctual(w: World, evs: seq<Event>)
    decreases |evs|
  {
    evs == [] || (OnTime(w, evs[0]) && Punctual(Step(w, evs[0]), evs[1..]))
  }

  // The event that is to come, after `total - count` packets, is due at `at`.
  predicate DueAt(s: State, now: nat, at: int) {
    if s.timer.pending then now == at else s.timer.due == Some(at) && now <= at
  }

  predicate Paced(s: State, now: nat, first: int, total: nat, interval: uint16) {
    if s.timer.Live() then
      s.count <= total && s.interval == interval && DueAt(s, now, first + (total - s.count) * interval)
    else first + total * interval <= now
  }

  lemma OneFurther(n: int, ms: int)
    ensures (n + 1) * ms == n * ms + ms
  {
  }

  lemma StepPaced(w: World, ev: Event, first: int, base: seq<Action>, addr: uint16, total: nat, interval: uint16)
    requires Underway(w.s, base, addr, total) && Paced(w.s, w.now, first, total, interval)
    requires (ev.Tick? || ev.Deliver?) && OnTime(w, ev)
    ensures Paced(Step(w, ev).s, Step(w, ev).now, first, total, interval)
  {
    OneFurther(total - w.s.count, interval);
  }

  lemma {:induction false} RunPaced(w: World, evs: seq<Event>, first: int, base: seq<Action>, addr: uint16,
                                    total: nat, interval: uint16)
    requires Undisturbed(evs) && Punctual(w, evs)
    requires Underway(w.s, base, addr, total) && Paced(w.s, w.now, first, total, interval)
    ensures Underway(Run(w, evs).s, base, addr, total)
    ensures Paced(Run(w, evs).s, Run(w, evs).now, first, total, interval)
    decreases |evs|
  {
    if evs != [] {
      assert evs[0] in evs;
      UnderwayStep(w, evs[0], base, addr, total);
      StepPaced(w, evs[0], first, base, addr, total, interval);
      RunPaced(Step(w, evs[0]), evs[1..], first, base, addr, total, interval);
    }
  }

  // On time, the first packet of an accepted start goes out 500 ms after it (or
  // at once, if an event was still pending), each one `interval` ms after the one
  // before, and the end `interval` ms after the last: with k packets out, the
  // next event comes at the first one's time and k intervals.
  lemma PacedExperiment(w: World, addr: uint16, count: uint16, interval: uint16, evs: seq<Event>)
    requires StatusOf(w.s, count, interval) == NoError && Undisturbed(evs)
    requires Punctual(Step(w, StartCmd(addr, count, interval)), evs)
    ensures var r := Run(Step(w, StartCmd(addr, count, interval)), evs);
      var first := w.now + if w.s.timer.pending then 0 else 500;
      var k := count - r.s.count;
      && (r.s.timer.Live() ==>
            && 0 <= k && r.s.trace == w.s.trace + Packets(addr, k)
            && (if r.s.timer.pending then r.now == first + k * interval
                else r.s.timer.due == Some(first + k * interval) && r.now <= first + k * interval))
      && (!r.s.timer.Live() ==>
            && first + count * interval <= r.now
            && r.s.trace == w.s.trace + Packets(addr, count)
                            + [End(addr), DarkLed1, Say("Power Saving Experiment finished")])
  {
    var v := Step(w, StartCmd(addr, count, interval));
    var first := w.now + if w.s.timer.pending then 0 else 500;
    assert w.s.trace + Packets(addr, 0) == w.s.trace;
    RunPaced(v, evs, first, w.s.trace, addr, count, interval);
  }
}
