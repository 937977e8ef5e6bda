// When blinking stops for good. A delivered blink event that leaves no timer
// armed is the last thing that happens to the LEDs until somebody calls.

module HalLedStalls {
  import opened Osal
  import opened HalLedModel
  import opened HalLedRuns
  import opened HalLedLifecycle

  // A blink event is about to be delivered to LEDs that are awake.
  predicate AboutToUpdate(w: World) {
    Legal(w) && !w.e.sleeping && w.e.timer.pending && OneWay(w.e.timer)
  }

  predicate Idle(evs: seq<Event>) {
    forall ev | ev in evs :: ev.Tick? || ev.Deliver?
  }

  lemma UpdatedLed(w: World, k: nat)
    requires AboutToUpdate(w) && k < 4
    ensures After(w, Deliver).e.leds[k] == UpdateOne(w.e.leds[k], w.now)
    ensures After(w, Deliver).now == w.now && !After(w, Deliver).e.sleeping
    ensures Waits(w.e, w.now)[k] == WaitOne(w.e.leds[k], w.now)
  {
    Share(w, Deliver, k);
  }

  lemma UpdatedTimer(w: World)
    requires AboutToUpdate(w)
    ensures var next := MinPos(Waits(w.e, w.now));
      After(w, Deliver).e.timer == Timer(if next == 0 then None else Some(w.now + next), false)
  {
    assert Waits(w.e.(timer := w.e.timer.Take()), w.now) == Waits(w.e, w.now);
  }

  // An LED needs no further event: its blink is over, or the phase it begins
  // rounds to 0 ms.
  predicate Asks(l: Led, now: nat)
    requires WellFormed(l)
  {
    UpdateOne(l, now).blink && !Vanishes(l, now)
  }

  // A delivered event leaves no timer behind exactly when no LED asks for one.
  lemma StallsExactly(w: World)
    requires AboutToUpdate(w)
    ensures After(w, Deliver).e.timer.Live() <==> exists k | 0 <= k < 4 :: Asks(w.e.leds[k], w.now)
  {
    var waits := Waits(w.e, w.now);
    MinPosIsLeast(waits);
    UpdatedTimer(w);
    forall k | 0 <= k < 4
      ensures waits[k] != 0 <==> Asks(w.e.leds[k], w.now)
    {
      UpdatedLed(w, k);
      WaitIsGap(w.e.leds[k], w.now);
      VanishesExactly(w.e.leds[k], w.now);
    }
  }

  // The clock runs to the deadline and the event is delivered.
  function NextEvent(w: World): World
    requires Legal(w) && w.e.timer.due.Some? && w.now <= w.e.timer.due.value
  {
    After(After(w, Tick(w.e.timer.due.value - w.now)), Deliver)
  }

  lemma DueChanges(l: Led, now: nat)
    requires WellFormed(l) && Due(l, now)
    ensures UpdateOne(l, now) != l
  {
  }

  // With a timer, the next event changes an LED that blinks.
  lemma NextEventChanges(w: World) returns (k: nat)
    requires AboutToUpdate(w) && After(w, Deliver).e.timer.Live()
    ensures var v := After(w, Deliver);
      && v.e.timer.due.Some? && v.now < v.e.timer.due.value && k < 4
      && v.e.leds[k].blink && NextEvent(v).e.leds[k] != v.e.leds[k]
  {
    var waits := Waits(w.e, w.now);
    MinPosIsLeast(waits);
    UpdatedTimer(w);
    k :| 0 <= k < 4 && waits[k] == MinPos(waits);
    UpdatedLed(w, k);
    WaitIsGap(w.e.leds[k], w.now);
    var v := After(w, Deliver);
    var u := After(v, Tick(MinPos(waits)));
    assert v.e.leds[k].next == u.now;
    UpdatedLed(u, k);
    DueChanges(u.e.leds[k], u.now);
  }

  // So everything is as it was left, however often the clock ticks and events
  // are delivered, exactly when every LED has stopped blinking or begins a
  // phase that rounds to 0 ms: those are then frozen in that phase.
  lemma FreezesExactly(w: World)
    requires AboutToUpdate(w)
    ensures (forall evs | Idle(evs) :: Run(After(w, Deliver), evs).e.leds == After(w, Deliver).e.leds)
        <==> forall k | 0 <= k < 4 :: !Asks(w.e.leds[k], w.now)
  {
    var v := After(w, Deliver);
    StallsExactly(w);
    if v.e.timer.Live() {
      var k := NextEventChanges(w);
      var evs := [Tick(v.e.timer.due.value - v.now), Deliver];
      RunTwo(v, evs[0], evs[1]);
      assert Idle(evs);
      assert Run(v, evs).e.leds[k] != v.e.leds[k];
    } else {
      forall evs | Idle(evs)
        ensures Run(v, evs).e.leds == v.e.leds
      {
        StalledForever(v, evs);
      }
    }
  }

  lemma RunTwo(w: World, a: Event, b: Event)
    requires Legal(w)
    ensures Run(w, [a, b]) == After(After(w, a), b)
  {
    assert [a, b][1..] == [b] && [b][1..] == [];
    assert Run(After(w, a), [b]) == After(After(w, a), b);
  }

  // What a frozen LED shows: lit if its ON phase was too short, dark if its OFF
  // phase was, and it never gets back to what it showed before the blink.
  lemma FrozenShows(w: World, evs: seq<Event>, k: nat)
    requires AboutToUpdate(w) && Idle(evs) && k < 4
    requires forall j | 0 <= j < 4 :: !Asks(w.e.leds[j], w.now)
    requires Vanishes(w.e.leds[k], w.now)
    ensures var l := Run(After(w, Deliver), evs).e.leds[k];
      l.blink && l.on == l.cached == l.pin == !w.e.leds[k].on && l.saved == w.e.leds[k].saved
  {
    StallsExactly(w);
    UpdatedLed(w, k);
    StalledForever(After(w, Deliver), evs);
  }

  // For example, the only blink of an engine freezes, lit, in its first ON phase
  // when that rounds to nothing.
  lemma ShortPhaseFreezes(w: World, mask: bv8, n: uint8, pct: uint8, period: uint16, evs: seq<Event>, k: nat)
    requires Legal(w) && !w.e.sleeping && k < 4 && Sel(mask, k)
    requires forall j | 0 <= j < 4 :: !w.e.leds[j].blink
    requires 0 < pct < 100 && 0 < period && pct * period < 100
    requires Idle(evs)
    ensures var l := Run(After(After(w, Blink(mask, n, pct, period)), Deliver), evs).e.leds[k];
      l.blink && l.on && l.pin
  {
    var v := After(w, Blink(mask, n, pct, period));
    if mask == 0 {
      NothingSelected(k);
    }
    forall j | 0 <= j < 4
      ensures !Asks(v.e.leds[j], w.now) && (Sel(mask, j) ==> Vanishes(v.e.leds[j], w.now) && !v.e.leds[j].on)
    {
      Share(w, Blink(mask, n, pct, period), j);
    }
    FrozenShows(v, evs, k);
  }
}
