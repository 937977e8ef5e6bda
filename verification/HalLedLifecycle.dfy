// One blink of one LED from HalLedBlink to its last update, in any run that
// leaves that LED alone, and the round trip through sleep.

module HalLedLifecycle {
  import opened Osal
  import opened HalLedModel
  import opened HalLedRuns

  // ----- the updates of one LED

  function Updates(l: Led, ts: seq<nat>): (r: Led)
    requires WellFormed(l)
    ensures WellFormed(r)
    decreases |ts|
  {
    if ts == [] then l else Updates(UpdateOne(l, ts[0]), ts[1..])
  }

  // How many of the updates find the LED due.
  function Beats(l: Led, ts: seq<nat>): nat
    requires WellFormed(l)
    decreases |ts|
  {
    if ts == [] then 0
    else (if Due(l, ts[0]) then 1 else 0) + Beats(UpdateOne(l, ts[0]), ts[1..])
  }

  predicate Enters(l: Led, t: nat, lit: bool)
    requires WellFormed(l)
  {
    Due(l, t) && UpdateOne(l, t).blink && UpdateOne(l, t).on == lit
  }

  // How many of them begin an ON phase (`lit`) or an OFF phase.
  function Phases(l: Led, ts: seq<nat>, lit: bool): nat
    requires WellFormed(l)
    decreases |ts|
  {
    if ts == [] then 0
    else (if Enters(l, ts[0], lit) then 1 else 0) + Phases(UpdateOne(l, ts[0]), ts[1..], lit)
  }

  // The milliseconds of the phases they schedule.
  function Scheduled(l: Led, ts: seq<nat>): nat
    requires WellFormed(l)
    decreases |ts|
  {
    if ts == [] then 0
    else
      var r := UpdateOne(l, ts[0]);
      (if Due(l, ts[0]) && r.blink then WaitOne(l, ts[0]) else 0) + Scheduled(r, ts[1..])
  }

  function Min(a: int, b: int): int {
    if a < b then a else b
  }

  // Due updates left in a counted blink.
  function Left(l: Led): nat {
    2 * l.todo + if l.on then 0 else 1
  }

  predicate Counted(l: Led) {
    WellFormed(l) && l.blink && !l.flash && Owing(l)
  }

  lemma Beat(l: Led, t: nat)
    requires Counted(l) && Due(l, t)
    ensures var r := UpdateOne(l, t);
      && (r.blink <==> 1 < Left(l))
      && (r.blink ==> Counted(r) && Left(r) == Left(l) - 1 && r.saved == l.saved && r.on == !l.on
                      && r.onPct == l.onPct && r.time == l.time
                      && r.next == t + WaitOne(l, t)
                      && WaitOne(l, t) == if l.on then OffMs(l) else OnMs(l))
      && (!r.blink ==> !r.saved && r.on == r.cached == r.pin == l.saved)
  {
  }

  // An LED that does not blink is not touched by updates.
  lemma {:induction false} Resting(l: Led, ts: seq<nat>)
    requires WellFormed(l) && !l.blink
    ensures Updates(l, ts) == l && Beats(l, ts) == 0 && Scheduled(l, ts) == 0
    ensures Phases(l, ts, true) == 0 == Phases(l, ts, false)
    decreases |ts|
  {
    if ts != [] {
      Resting(l, ts[1..]);
    }
  }

  // The whole course of a counted blink, whatever the times of its updates.
  lemma {:induction false} Course(l: Led, ts: seq<nat>)
    requires Counted(l)
    ensures var r, b := Updates(l, ts), Beats(l, ts);
      && b <= Left(l)
      && (r.blink <==> b < Left(l))
      && (!r.blink ==> !r.saved && r.on == r.cached == r.pin == l.saved)
    decreases |ts|
  {
    if ts != [] {
      var t, rest := ts[0], ts[1..];
      var r := UpdateOne(l, t);
      if Due(l, t) {
        Beat(l, t);
        if r.blink {
          Course(r, rest);
        } else {
          Resting(r, rest);
        }
      } else {
        Course(l, rest);
      }
    }
  }

  // The ON phases (`lit`) or OFF phases that `b` due updates enter, with `todo`
  // cycles to go.
  function Entered(todo: int, on: bool, b: int, lit: bool): int {
    if lit then (if on then Min(todo - 1, b / 2) else Min(todo, (b + 1) / 2))
    else Min(todo, if on then (b + 1) / 2 else b / 2)
  }

  // The phases that a counted blink still has to enter.
  function Owed(l: Led, lit: bool): int {
    if !l.blink then 0 else if lit && l.on then l.todo - 1 else l.todo
  }

  lemma {:induction false} PhasesOwed(l: Led, ts: seq<nat>, lit: bool)
    requires Counted(l)
    ensures var r := Updates(l, ts);
      && Phases(l, ts, lit) == Owed(l, lit) - Owed(r, lit)
      && Beats(l, ts) == Left(l) - (if r.blink then Left(r) else 0)
      && (r.blink ==> Counted(r))
    decreases |ts|
  {
    if ts != [] {
      var t, rest := ts[0], ts[1..];
      var r := UpdateOne(l, t);
      if Due(l, t) {
        Beat(l, t);
        if r.blink {
          PhasesOwed(r, rest, lit);
        } else {
          Resting(r, rest);
        }
      } else {
        PhasesOwed(l, rest, lit);
      }
    }
  }

  lemma EnteredOwed(l: Led, r: Led, lit: bool)
    requires Counted(l) && (r.blink ==> Counted(r) && Left(r) <= Left(l))
    ensures Owed(l, lit) - Owed(r, lit) == Entered(l.todo, l.on, Left(l) - (if r.blink then Left(r) else 0), lit)
  {
  }

  lemma CoursePhases(l: Led, ts: seq<nat>, lit: bool)
    requires Counted(l)
    ensures Phases(l, ts, lit) == Entered(l.todo, l.on, Beats(l, ts), lit)
  {
    PhasesOwed(l, ts, lit);
    EnteredOwed(l, Updates(l, ts), lit);
  }

  lemma OneMore(n: int, ms: int)
    ensures (n + 1) * ms == n * ms + ms
  {
  }

  // The scheduled time is what the phases add up to.
  lemma {:induction false} CourseTime(l: Led, ts: seq<nat>)
    requires Counted(l)
    ensures Scheduled(l, ts) == Phases(l, ts, true) * OnMs(l) + Phases(l, ts, false) * OffMs(l)
    decreases |ts|
  {
    if ts != [] {
      var t, rest := ts[0], ts[1..];
      var r := UpdateOne(l, t);
      if Due(l, t) {
        Beat(l, t);
        if r.blink {
          CourseTime(r, rest);
          OneMore(Phases(r, rest, true), OnMs(l));
          OneMore(Phases(r, rest, false), OffMs(l));
        } else {
          Resting(r, rest);
        }
      } else {
        CourseTime(l, rest);
      }
    }
  }

  // And the blink cannot run ahead of it.
  lemma {:induction false} CourseBound(l: Led, ts: seq<nat>)
    requires Counted(l)
    ensures Updates(l, ts).blink ==> l.next + Scheduled(l, ts) <= Updates(l, ts).next
    decreases |ts|
  {
    if ts != [] {
      var t, rest := ts[0], ts[1..];
      var r := UpdateOne(l, t);
      if Due(l, t) {
        Beat(l, t);
        if r.blink {
          CourseBound(r, rest);
        } else {
          Resting(r, rest);
        }
      } else {
        CourseBound(l, rest);
      }
    }
  }

  // ----- one cycle

  lemma Complement(x: nat, time: nat)
    requires x <= 100 * time
    ensures x / 100 + (100 * time - x) / 100 == if x % 100 == 0 then time else time - 1
  {
  }

  lemma Percent(pct: nat, time: nat)
    requires pct < 100
    ensures 0 <= pct * time <= 100 * time && (100 - pct) * time == 100 * time - pct * time
  {
    Grows(100 - pct, time);
  }

  lemma CycleMs(l: Led)
    requires WellFormed(l) && l.blink
    ensures OnMs(l) + OffMs(l) == CycleOf(l.onPct, l.time)
  {
    PhasesFit(l);
    Percent(l.onPct, l.time);
    Complement(l.onPct * l.time, l.time);
  }

  // A cycle loses a millisecond when its phases do not divide evenly.
  function CycleOf(pct: nat, period: nat): int {
    if pct * period % 100 == 0 then period else period - 1
  }

  // ----- a blink in a run of the engine

  // The clock readings of the updates that run.
  function Served(w: World, evs: seq<Event>): seq<nat>
    requires Legal(w)
    decreases |evs|
  {
    if evs == [] then []
    else
      StepLegal(w, evs[0]);
      (if evs[0].Deliver? && w.e.timer.pending && !w.e.sleeping then [w.now] else [])
      + Served(Step(w, evs[0]), evs[1..])
  }

  // Nothing but updates happens to LED `k`; the others may do as they please.
  predicate LeftAlone(w: World, evs: seq<Event>, k: nat)
    requires Legal(w) && k < 4
    decreases |evs|
  {
    evs == [] ||
    (StepLegal(w, evs[0]);
     !evs[0].ExitSleep? && (ActOf(w, evs[0], k).Keep? || ActOf(w, evs[0], k).Refresh?)
     && LeftAlone(Step(w, evs[0]), evs[1..], k))
  }

  lemma {:induction false} Projection(w: World, evs: seq<Event>, k: nat)
    requires Legal(w) && k < 4 && LeftAlone(w, evs, k)
    ensures Run(w, evs).e.leds[k] == Updates(w.e.leds[k], Served(w, evs))
    decreases |evs|
  {
    if evs != [] {
      StepLegal(w, evs[0]);
      Share(w, evs[0], k);
      var v := Step(w, evs[0]);
      Projection(v, evs[1..], k);
      var rest := Served(v, evs[1..]);
      if ActOf(w, evs[0], k).Refresh? {
        assert Served(w, evs) == [w.now] + rest;
      } else if evs[0].Deliver? {
        assert Served(w, evs) == [] + rest == rest;
      } else {
        assert Served(w, evs) == [] + rest == rest;
      }
    }
  }

  lemma Cycles(n: nat, on: int, off: int, cycle: int)
    requires on + off == cycle
    ensures n * on + n * off == n * cycle
  {
  }

  // A counted blink from its start.
  lemma CountedLifecycle(l: Led, ts: seq<nat>)
    requires Counted(l) && !l.on
    ensures var r, b := Updates(l, ts), Beats(l, ts);
      && b <= 2 * l.todo + 1
      && (r.blink <==> b < 2 * l.todo + 1)
      && Phases(l, ts, true) == Min(l.todo, (b + 1) / 2)
      && (!r.blink ==> !r.saved && r.on == r.cached == r.pin == l.saved)
      && (!r.blink ==> Scheduled(l, ts) == l.todo * CycleOf(l.onPct, l.time))
      && (r.blink ==> l.next + Scheduled(l, ts) <= r.next)
  {
    Course(l, ts);
    CoursePhases(l, ts, true);
    CoursePhases(l, ts, false);
    CourseTime(l, ts);
    CourseBound(l, ts);
    CycleMs(l);
    Cycles(l.todo, OnMs(l), OffMs(l), CycleOf(l.onPct, l.time));
  }

  function After(w: World, ev: Event): (v: World)
    requires Legal(w)
    ensures Legal(v)
  {
    StepLegal(w, ev);
    Step(w, ev)
  }

  // HalLedBlink(leds, n, pct, period) on an LED that does not blink: exactly
  // 2n + 1 due updates later it is done; it has entered its ON phase n times;
  // the phases scheduled for it add up to n cycles; and it shows what was saved.
  lemma BlinkLifecycle(w: World, mask: bv8, n: uint8, pct: uint8, period: uint16, evs: seq<Event>, k: nat)
    requires Legal(w) && k < 4 && Sel(mask, k)
    requires 0 < n && 0 < pct < 100 && 0 < period
    requires !w.e.leds[k].blink
    requires LeftAlone(After(w, Blink(mask, n, pct, period)), evs, k)
    ensures var v := After(w, Blink(mask, n, pct, period));
      var l, ts, r := v.e.leds[k], Served(v, evs), Run(v, evs).e.leds[k];
      var b := Beats(l, ts);
      && b <= 2 * n + 1
      && (r.blink <==> b < 2 * n + 1)
      && Phases(l, ts, true) == Min(n, (b + 1) / 2)
      && (!r.blink ==> !r.saved && r.on == r.cached == r.pin == (w.e.leds[k].saved || w.e.leds[k].cached))
      && (!r.blink ==> Scheduled(l, ts) == n * CycleOf(pct, period))
      && (r.blink ==> w.now + Scheduled(l, ts) <= r.next)
  {
    var v := After(w, Blink(mask, n, pct, period));
    if mask == 0 {
      NothingSelected(k);
    }
    Share(w, Blink(mask, n, pct, period), k);
    Projection(v, evs, k);
    CountedLifecycle(v.e.leds[k], Served(v, evs));
  }

  lemma NothingSelected(k: nat)
    requires k < 4
    ensures !Sel(0, k)
  {
  }

  // The state before the blink comes back exactly when no stale bit of an
  // earlier, interrupted blink was left over for a dark LED.
  lemma RestoredExactly(w: World, mask: bv8, n: uint8, pct: uint8, period: uint16, evs: seq<Event>, k: nat)
    requires Legal(w) && k < 4 && Sel(mask, k)
    requires 0 < n && 0 < pct < 100 && 0 < period
    requires !w.e.leds[k].blink
    requires LeftAlone(After(w, Blink(mask, n, pct, period)), evs, k)
    requires var v := After(w, Blink(mask, n, pct, period));
      Beats(v.e.leds[k], Served(v, evs)) == 2 * n + 1
    ensures Run(After(w, Blink(mask, n, pct, period)), evs).e.leds[k].cached == w.e.leds[k].cached
            <==> !(w.e.leds[k].saved && !w.e.leds[k].cached)
  {
    BlinkLifecycle(w, mask, n, pct, period, evs, k);
  }

  // The update that ends a blink.
  predicate Finishes(l: Led, now: nat) {
    Due(l, now) && !l.on && l.todo == 0 && !l.flash
  }

  // Whether a run has started a blink on LED `k` while it was lit, and finished
  // none on it since; `before` stands for a run that does neither.
  predicate Unfinished(w: World, evs: seq<Event>, k: nat, before: bool)
    requires Legal(w) && k < 4
    decreases |evs|
  {
    if evs == [] then before
    else
      var l, a := w.e.leds[k], ActOf(w, evs[0], k);
      var now :=
        if a.Start? && !l.blink && l.cached then true
        else if a.Refresh? && a.update && Finishes(l, w.now) then false
        else before;
      StepLegal(w, evs[0]);
      Unfinished(Step(w, evs[0]), evs[1..], k, now)
  }

  lemma ApplySaved(l: Led, a: Act, now: nat)
    requires WellFormed(l)
    ensures Apply(l, a, now).saved <==>
      if a.Start? && !l.blink && l.cached then true
      else if a.Refresh? && a.update && Finishes(l, now) then false
      else l.saved
  {
  }

  // Which LEDs have their bit in preBlinkState, after any run.
  lemma {:induction false} SavedExactly(w: World, evs: seq<Event>, k: nat)
    requires Legal(w) && k < 4
    ensures Run(w, evs).e.leds[k].saved <==> Unfinished(w, evs, k, w.e.leds[k].saved)
    decreases |evs|
  {
    if evs != [] {
      StepLegal(w, evs[0]);
      Share(w, evs[0], k);
      ApplySaved(w.e.leds[k], ActOf(w, evs[0], k), w.now);
      SavedExactly(Step(w, evs[0]), evs[1..], k);
    }
  }

  // So, after any past of the engine: the state before a blink comes back
  // exactly when the LED was lit, or no earlier blink of the lit LED was cut
  // short without one that finished since.
  lemma RestoredAfterRun(start: World, past: seq<Event>, mask: bv8, n: uint8, pct: uint8, period: uint16,
                         evs: seq<Event>, k: nat)
    requires Legal(start) && k < 4 && Sel(mask, k) && !start.e.leds[k].saved
    requires 0 < n && 0 < pct < 100 && 0 < period
    requires !Run(start, past).e.leds[k].blink
    requires LeftAlone(After(Run(start, past), Blink(mask, n, pct, period)), evs, k)
    requires var v := After(Run(start, past), Blink(mask, n, pct, period));
      Beats(v.e.leds[k], Served(v, evs)) == 2 * n + 1
    ensures var w := Run(start, past);
      Run(After(w, Blink(mask, n, pct, period)), evs).e.leds[k].cached == w.e.leds[k].cached
      <==> w.e.leds[k].cached || !Unfinished(start, past, k, false)
  {
    SavedExactly(start, past, k);
    RestoredExactly(Run(start, past), mask, n, pct, period, evs, k);
  }

  // ----- sleep

  predicate Asleep(ev: Event) {
    ev.Tick? || ev.Deliver?
  }

  // Some blink event is delivered, and lost, while the LEDs sleep.
  predicate Consumed(w: World, evs: seq<Event>)
    requires Legal(w)
    decreases |evs|
  {
    evs != [] &&
    ((evs[0].Deliver? && w.e.timer.pending) ||
     (StepLegal(w, evs[0]); Consumed(Step(w, evs[0]), evs[1..])))
  }

  lemma {:induction false} SleepKeeps(w: World, evs: seq<Event>)
    requires Legal(w) && w.e.sleeping && forall ev | ev in evs :: Asleep(ev)
    ensures Run(w, evs).e.(timer := w.e.timer) == w.e
    ensures OneWay(w.e.timer) && w.e.timer.Live() ==>
      (Run(w, evs).e.timer.Live() <==> !Consumed(w, evs)) && OneWay(Run(w, evs).e.timer)
    ensures OneWay(w.e.timer) && Waking(w) && !Consumed(w, evs) ==> Waking(Run(w, evs))
    decreases |evs|
  {
    if evs != [] {
      var ev := evs[0];
      assert ev in evs;
      StepLegal(w, ev);
      var v := Step(w, ev);
      SleepKeeps(v, evs[1..]);
      if ev.Deliver? && w.e.timer.pending && OneWay(w.e.timer) {
        StalledForever(v, evs[1..]);
      }
    }
  }

  // Into sleep, any number of blink events, out of sleep: pins and control
  // table are as before, and HalLedState is what the pins say. It is as before,
  // then, exactly when it was truthful.
  lemma SleepRoundTrip(w: World, evs: seq<Event>)
    requires Legal(w)
    requires forall ev | ev in evs :: Asleep(ev)
    ensures var out := Step(Run(After(w, EnterSleep), evs), ExitSleep);
      && |out.e.leds| == 4
      && !out.e.sleeping
      && (forall k | 0 <= k < 4 :: out.e.leds[k] == w.e.leds[k].(cached := w.e.leds[k].pin))
      && (out.e.leds == w.e.leds <==> forall k | 0 <= k < 4 :: Truthful(w.e.leds[k]))
  {
    var a := After(w, EnterSleep);
    SleepKeeps(a, evs);
    var b := Run(a, evs);
    var out := Step(b, ExitSleep);
    forall k | 0 <= k < 4
      ensures |out.e.leds| == 4 && out.e.leds[k] == w.e.leds[k].(cached := w.e.leds[k].pin)
    {
      Share(w, EnterSleep, k);
      Share(b, ExitSleep, k);
    }
    if forall k | 0 <= k < 4 :: Truthful(w.e.leds[k]) {
      assert forall k | 0 <= k < 4 :: out.e.leds[k] == w.e.leds[k];
    }
  }

  // Leaving sleep restarts nothing: its update still sees the LEDs asleep. A
  // blinking LED wakes up again exactly when no blink event came by meanwhile.
  lemma SleepMissesExactly(w: World, evs: seq<Event>, k: nat)
    requires Legal(w) && k < 4 && w.e.leds[k].blink
    requires OneWay(w.e.timer) && Waking(w)
    requires forall ev | ev in evs :: Asleep(ev)
    ensures |Step(Run(After(w, EnterSleep), evs), ExitSleep).e.leds| == 4
    ensures Waking(Step(Run(After(w, EnterSleep), evs), ExitSleep)) <==> !Consumed(After(w, EnterSleep), evs)
  {
    var a := After(w, EnterSleep);
    SleepRoundTrip(w, evs);
    SleepKeeps(a, evs);
    forall j | 0 <= j < 4
      ensures a.e.leds[j].blink == w.e.leds[j].blink && a.e.leds[j].next == w.e.leds[j].next
    {
      Share(w, EnterSleep, j);
    }
    var b := Run(a, evs);
    var out := Step(b, ExitSleep);
    assert out.e.timer == b.e.timer;
    forall j | 0 <= j < 4
      ensures b.e.leds[j].blink == out.e.leds[j].blink && b.e.leds[j].next == out.e.leds[j].next
    {
    }
    assert Waking(a);
    assert a.e.timer.Live();
    if Waking(out) {
      assert Awaits(out.e.timer, out.e.leds[k]);
    } else {
      assert !Waking(b);
    }
  }
}
