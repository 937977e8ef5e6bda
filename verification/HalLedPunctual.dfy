// Blinks on time: in a run that delivers every blink event when its timer
// expires, a counted blink ends on the millisecond that its cycles add up to,
// whatever blinks beside it.

module HalLedPunctual {
  import opened Osal
  import opened HalLedModel
  import opened HalLedRuns
  import opened HalLedLifecycle

  // The clock stops at a deadline until its event has been delivered.
  predicate OnTime(w: World, ev: Event) {
    ev.Tick? ==> ev.dt == 0 || (!w.e.timer.pending && (w.e.timer.due.Some? ==> w.now + ev.dt <= w.e.timer.due.value))
  }

  predicate Punctual(w: World, evs: seq<Event>)
    requires Legal(w)
    decreases |evs|
  {
    evs == [] || (OnTime(w, evs[0]) && Punctual(After(w, evs[0]), evs[1..]))
  }

  // From the next change on, the phases that are left.
  function Remaining(l: Led): int
    requires WellFormed(l) && l.blink
  {
    if l.on then OffMs(l) + (l.todo - 1) * CycleOf(l.onPct, l.time) else l.todo * CycleOf(l.onPct, l.time)
  }

  // A counted blink that is to end at `end`, or has ended.
  predicate OnCourse(w: World, k: nat, end: int)
    requires Legal(w) && k < 4
  {
    var l := w.e.leds[k];
    if l.blink then Counted(l) && w.now <= l.next && l.next + Remaining(l) == end else end <= w.now
  }

  lemma LessOne(n: int, cycle: int)
    ensures (n - 1) * cycle == n * cycle - cycle
  {
  }

  // An update on time takes the phase off what is left.
  lemma BeatOnTime(l: Led, now: nat, end: int)
    requires Counted(l) && l.next == now && now + Remaining(l) == end
    ensures var r := UpdateOne(l, now);
      if r.blink then Counted(r) && now <= r.next && r.next + Remaining(r) == end else end == now
  {
    Beat(l, now);
    CycleMs(l);
    LessOne(l.todo, CycleOf(l.onPct, l.time));
  }

  lemma StepOnCourse(w: World, ev: Event, k: nat, end: int)
    requires Alert(w) && k < 4 && OnTime(w, ev) && OnCourse(w, k, end)
    requires !ev.ExitSleep? && (ActOf(w, ev, k).Keep? || ActOf(w, ev, k).Refresh?)
    ensures OnCourse(After(w, ev), k, end)
  {
    var l := w.e.leds[k];
    Share(w, ev, k);
    assert Awaits(w.e.timer, l);
    if ActOf(w, ev, k).Refresh? && Due(l, w.now) {
      BeatOnTime(l, w.now, end);
    }
  }

  lemma {:induction false} RunOnCourse(w: World, evs: seq<Event>, k: nat, end: int)
    requires Alert(w) && k < 4 && OnCourse(w, k, end)
    requires Punctual(w, evs) && LeftAlone(w, evs, k) && forall ev | ev in evs :: Gentle(ev)
    ensures OnCourse(Run(w, evs), k, end) && Alert(Run(w, evs))
    decreases |evs|
  {
    if evs != [] {
      assert evs[0] in evs;
      StepOnCourse(w, evs[0], k, end);
      StepAlert(w, evs[0]);
      RunOnCourse(After(w, evs[0]), evs[1..], k, end);
    }
  }

  lemma StartOnCourse(w: World, mask: bv8, n: uint8, pct: uint8, period: uint16, k: nat)
    requires Alert(w) && k < 4 && Sel(mask, k) && !w.e.leds[k].blink
    requires 0 < n && 0 < pct < 100 && 0 < period && Rounds(pct, period)
    ensures var v := After(w, Blink(mask, n, pct, period));
      Alert(v) && OnCourse(v, k, w.now + n * CycleOf(pct, period))
  {
    Share(w, Blink(mask, n, pct, period), k);
    if mask == 0 {
      NothingSelected(k);
    }
    StepAlert(w, Blink(mask, n, pct, period));
  }

  // At its end a blink on course has no phase left.
  lemma NoPhaseLeft(w: World, k: nat, end: int)
    requires Alert(w) && k < 4 && OnCourse(w, k, end) && w.e.leds[k].blink && end <= w.now
    ensures Finishes(w.e.leds[k], w.now) && w.now == end
  {
    var l := w.e.leds[k];
    PhasesFit(l);
    CycleMs(l);
    Positive(l.todo, CycleOf(l.onPct, l.time));
    LessOne(l.todo, CycleOf(l.onPct, l.time));
  }

  lemma Positive(n: nat, cycle: int)
    requires 0 < cycle
    ensures 0 <= n * cycle && (0 < n ==> cycle <= n * cycle)
  {
    if 0 < n {
      assert n * cycle == (n - 1) * cycle + cycle;
    }
  }

  lemma CourseEnds(w: World, k: nat, end: int)
    requires Alert(w) && k < 4 && OnCourse(w, k, end)
    ensures w.now < end ==> w.e.leds[k].blink && w.e.timer.Live()
    ensures end < w.now ==> !w.e.leds[k].blink
    ensures w.now == end && w.e.timer.pending ==> !After(w, Deliver).e.leds[k].blink
  {
    assert Awaits(w.e.timer, w.e.leds[k]);
    Share(w, Deliver, k);
    if w.e.leds[k].blink && end <= w.now {
      NoPhaseLeft(w, k, end);
    }
  }

  // HalLedBlink(leds, n, pct, period) with phases of at least 1 ms, on an LED
  // that does not blink, in any run on time that leaves that LED alone: as long
  // as the clock is short of n cycles it blinks and an event is to come, the
  // event delivered right then ends it, and after that it does not blink. That
  // is its due update number 2n + 1.
  lemma PunctualBlink(w: World, mask: bv8, n: uint8, pct: uint8, period: uint16, evs: seq<Event>, k: nat)
    requires Alert(w) && k < 4 && Sel(mask, k) && !w.e.leds[k].blink
    requires 0 < n && 0 < pct < 100 && 0 < period && Rounds(pct, period)
    requires var v := After(w, Blink(mask, n, pct, period));
      Punctual(v, evs) && LeftAlone(v, evs, k) && forall ev | ev in evs :: Gentle(ev)
    ensures var v := After(w, Blink(mask, n, pct, period));
      var r, end := Run(v, evs), w.now + n * CycleOf(pct, period);
      && (r.now < end ==> r.e.leds[k].blink && r.e.timer.Live())
      && (r.now == end && r.e.timer.pending ==> !After(r, Deliver).e.leds[k].blink)
      && (end < r.now ==> !r.e.leds[k].blink)
      && (r.e.leds[k].blink <==> Beats(v.e.leds[k], Served(v, evs)) < 2 * n + 1)
  {
    var v := After(w, Blink(mask, n, pct, period));
    var end := w.now + n * CycleOf(pct, period);
    StartOnCourse(w, mask, n, pct, period, k);
    RunOnCourse(v, evs, k, end);
    CourseEnds(Run(v, evs), k, end);
    BlinkLifecycle(w, mask, n, pct, period, evs, k);
  }
}
