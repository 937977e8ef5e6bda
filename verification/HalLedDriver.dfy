// hal_led.c itself: a control table, three bit masks and the pins, all updated
// in place by loops that shift a one-bit mask along the nibble of LEDs.

module HalLedDriver {
  import opened Osal
  import opened HalLedModel

  // HalLedControl_t
  datatype Control = Control(mode: bv8, todo: uint8, onPct: uint8, time: uint16, next: nat)

  // 0, 1, 2, 3, 6 or 7: FLASH comes only with BLINK.
  predicate LegalMode(mode: bv8) {
    && mode & 0xF8 == 0
    && (mode & HAL_LED_MODE_FLASH != 0 ==> mode & HAL_LED_MODE_BLINK != 0)
  }

  // The bits of a nibble from number `k` on.
  function Above(k: nat): bv8
    requires k <= 4
  {
    if k == 0 then 0x0F else if k == 1 then 0x0E else if k == 2 then 0x0C else if k == 3 then 0x08 else 0
  }

  // The masks `led` and `leds` after `k` turns of a scan that started at `mask`.
  predicate Scan(k: nat, led: bv8, leds: bv8, mask: bv8)
  {
    && k <= 4
    && led == Bit(k)
    && leds == mask & Above(k)
  }

  lemma ScanStep(k: nat, led: bv8, leds: bv8, mask: bv8)
    requires Scan(k, led, leds, mask) && leds != 0
    ensures k < 4
    ensures leds & led != 0 <==> Sel(mask, k)
    ensures Scan(k + 1, led << 1, if leds & led != 0 then leds ^ led else leds, mask)
  {
    if k == 0 {
    } else if k == 1 {
    } else if k == 2 {
    } else if k == 3 {
    }
  }

  lemma ScanDone(k: nat, led: bv8, leds: bv8, mask: bv8)
    requires Scan(k, led, leds, mask) && leds == 0
    ensures forall j | k <= j < 4 :: !Sel(mask, j)
  {
    if k == 0 {
    } else if k == 1 {
    } else if k == 2 {
    } else if k == 3 {
    }
    forall j | k <= j < 4
      ensures !Sel(mask, j)
    {
      if j == 0 {
      } else if j == 1 {
      } else if j == 2 {
      } else {
      }
    }
  }

  lemma BitSelects(j: nat)
    requires j < 4
    ensures forall k | 0 <= k < 4 :: Sel(Bit(j), k) <==> k == j
  {
    forall k | 0 <= k < 4
      ensures Sel(Bit(j), k) <==> k == j
    {
      if j == 0 {
      } else if j == 1 {
      } else if j == 2 {
      } else {
      }
    }
  }

  // Saving one LED's state in preBlinkState, and clearing it again.
  lemma SavedBit(saved: bv8, state: bv8, k: nat)
    requires k < 4
    ensures forall j | 0 <= j < 4 :: Sel(saved | (Bit(k) & state), j) <==> Sel(saved, j) || (j == k && Sel(state, j))
    ensures forall j | 0 <= j < 4 :: Sel(saved & (Bit(k) ^ 0xFF), j) <==> Sel(saved, j) && j != k
  {
    forall j | 0 <= j < 4
      ensures Sel(saved | (Bit(k) & state), j) <==> Sel(saved, j) || (j == k && Sel(state, j))
      ensures Sel(saved & (Bit(k) ^ 0xFF), j) <==> Sel(saved, j) && j != k
    {
      SavedBitAt(saved, state, k, j);
    }
  }

  lemma SavedBitAt(saved: bv8, state: bv8, k: nat, j: nat)
    requires k < 4 && j < 4
    ensures Sel(saved | (Bit(k) & state), j) <==> Sel(saved, j) || (j == k && Sel(state, j))
    ensures Sel(saved & (Bit(k) ^ 0xFF), j) <==> Sel(saved, j) && j != k
  {
    if k == 0 {
    } else if k == 1 {
    } else if k == 2 {
    } else {
    }
  }

  lemma BitTests(mask: bv8, k: nat)
    requires k < 4
    ensures mask & Bit(k) != 0 <==> Sel(mask, k)
  {
  }

  lemma AllSelected()
    ensures forall k | 0 <= k < 4 :: Sel(HAL_LED_ALL, k)
  {
  }

  // HAL_STATE_LEDn: a pin read back as a bit.
  function Level(pin: bool): bv8 {
    if pin then 1 else 0
  }

  lemma Gathered(a: bool, b: bool, c: bool, d: bool)
    ensures var s := 0 | Level(a) | (Level(b) << 1) | (Level(c) << 2) | (Level(d) << 3);
      Sel(s, 0) == a && Sel(s, 1) == b && Sel(s, 2) == c && Sel(s, 3) == d
  {
  }

  // One LED, from its control entry, its bits and its pin.
  function LedOf(c: Control, cached: bool, saved: bool, pin: bool): Led {
    Led(c.mode & HAL_LED_MODE_ON != 0, c.mode & HAL_LED_MODE_BLINK != 0, c.mode & HAL_LED_MODE_FLASH != 0,
        c.todo, c.onPct, c.time, c.next, cached, saved, pin)
  }

  // The mode bits of a blinking LED when a phase begins.
  lemma PhaseBits(mode: bv8)
    requires LegalMode(mode) && mode & HAL_LED_MODE_BLINK != 0
    ensures var off := mode & !HAL_LED_MODE_ON;
      && LegalMode(off) && off & HAL_LED_MODE_ON == 0 && off & HAL_LED_MODE_BLINK != 0
      && (off & HAL_LED_MODE_FLASH != 0 <==> mode & HAL_LED_MODE_FLASH != 0)
    ensures var on := mode | HAL_LED_MODE_ON;
      && LegalMode(on) && on & HAL_LED_MODE_ON != 0 && on & HAL_LED_MODE_BLINK != 0
      && (on & HAL_LED_MODE_FLASH != 0 <==> mode & HAL_LED_MODE_FLASH != 0)
    ensures var done := mode ^ HAL_LED_MODE_BLINK;
      && (mode & HAL_LED_MODE_FLASH == 0 ==> LegalMode(done) && done & HAL_LED_MODE_FLASH == 0)
      && done & HAL_LED_MODE_BLINK == 0
      && (done & HAL_LED_MODE_ON != 0 <==> mode & HAL_LED_MODE_ON != 0)
  {
  }

  lemma MinPosStep(waits: seq<nat>, k: nat)
    requires k < |waits|
    ensures var m, w := MinPos(waits[..k]), waits[k];
      MinPos(waits[..k + 1]) == if m == 0 || (w != 0 && w < m) then w else m
  {
    assert waits[..k + 1][..k] == waits[..k];
  }

  function RequestOf(mode: bv8): Request {
    if mode == HAL_LED_MODE_ON then On else if mode == HAL_LED_MODE_OFF then Off else Toggle
  }

  // The first `k` bits of a mask.
  function SleptBits(mask: bv8, k: nat): (s: seq<bool>)
    requires k <= 4
    ensures |s| == k && forall j | 0 <= j < k :: s[j] == Sel(mask, j)
  {
    if k == 0 then [] else SleptBits(mask, k - 1) + [Sel(mask, k - 1)]
  }

  class LedDriver {
    const table: array<Control>
    const pins: array<bool>
    var ledState: bv8
    var preBlinkState: bv8
    var sleepLedState: bv8
    var sleepActive: bool
    var timer: Timer

    ghost predicate Valid()
      reads this, table
    {
      && table.Length == 4
      && pins.Length == 4
      && forall k | 0 <= k < 4 ::
          && LegalMode(table[k].mode)
          && (table[k].mode & HAL_LED_MODE_BLINK != 0 ==> 0 < table[k].onPct < 100 && 0 < table[k].time)
    }

    ghost function At(k: nat): (l: Led)
      requires k < 4 && table.Length == 4 && pins.Length == 4
      reads this, table, pins
    {
      LedOf(table[k], Sel(ledState, k), Sel(preBlinkState, k), pins[k])
    }

    ghost function State(): (e: Engine)
      requires Valid()
      reads this, table, pins
      ensures Proper(e)
    {
      Engine(Leds(4), sleepActive, SleptBits(sleepLedState, 4), timer)
    }

    // The first `k` LEDs.
    ghost function Leds(k: nat): (s: seq<Led>)
      requires Valid() && k <= 4
      reads this, table, pins
      ensures |s| == k && forall j | 0 <= j < k :: s[j] == At(j) && WellFormed(s[j])
    {
      if k == 0 then [] else Leds(k - 1) + [At(k - 1)]
    }

    lemma Assembled(e: Engine)
      requires Valid() && |e.leds| == 4 && |e.slept| == 4
      requires forall k | 0 <= k < 4 :: At(k) == e.leds[k] && Sel(sleepLedState, k) == e.slept[k]
      requires e.sleeping == sleepActive && e.timer == timer
      ensures State() == e
    {
      assert Leds(4) == e.leds;
      assert SleptBits(sleepLedState, 4) == e.slept;
    }

    // Static storage starts at zero.
    constructor ()
      ensures Valid() && fresh(table) && fresh(pins)
      ensures State() == POWER_UP
    {
      table := new Control[4](_ => Control(0, 0, 0, 0, 0));
      pins := new bool[4](_ => false);
      ledState, preBlinkState, sleepLedState := 0, 0, 0;
      sleepActive, timer := false, IDLE;
    }

    // HalLedInit
    method Init(now: nat)
      requires Valid()
      modifies this, table, pins
      ensures Valid()
      ensures State() == HalInit(old(State()), now)
    {
      var _ := Set(HAL_LED_ALL, HAL_LED_MODE_OFF, now);
      sleepActive := false;
    }

    // The HAL_TURN_ON_LEDn and HAL_TURN_OFF_LEDn macros.
    method DrivePins(leds: bv8, lit: bool)
      requires pins.Length == 4
      modifies pins
      ensures forall k | 0 <= k < 4 :: pins[k] == if Sel(leds, k) then lit else old(pins[k])
    {
      if leds & 1 != 0 { pins[0] := lit; }
      if leds & 2 != 0 { pins[1] := lit; }
      if leds & 4 != 0 { pins[2] := lit; }
      if leds & 8 != 0 { pins[3] := lit; }
    }

    // HalLedOnOff
    method OnOff(leds: bv8, mode: bv8)
      requires pins.Length == 4
      modifies this`ledState, pins
      ensures forall k | 0 <= k < 4 :: pins[k] == if Sel(leds, k) then mode == HAL_LED_MODE_ON else old(pins[k])
      ensures forall k | 0 <= k < 4 :: Sel(ledState, k) == if Sel(leds, k) then mode != 0 else old(Sel(ledState, k))
    {
      DrivePins(leds, mode == HAL_LED_MODE_ON);
      if mode != 0 {
        ledState := ledState | leds;
      } else {
        ledState := ledState & (leds ^ 0xFF);
      }
    }

    // HalLedSet
    method Set(leds: bv8, mode: bv8, now: nat) returns (state: bv8)
      requires Valid()
      modifies this`ledState, this`preBlinkState, this`timer, table, pins
      ensures Valid()
      ensures State() == HalSet(old(State()), leds, mode, now)
      ensures state == ledState
      decreases mode == HAL_LED_MODE_BLINK || mode == HAL_LED_MODE_FLASH, 1
    {
      if mode == HAL_LED_MODE_BLINK {
        Blink(leds, 1, HAL_LED_DEFAULT_DUTY_CYCLE, HAL_LED_DEFAULT_FLASH_TIME, now);
      } else if mode == HAL_LED_MODE_FLASH {
        Blink(leds, HAL_LED_DEFAULT_FLASH_COUNT, HAL_LED_DEFAULT_DUTY_CYCLE, HAL_LED_DEFAULT_FLASH_TIME, now);
      } else if mode == HAL_LED_MODE_ON || mode == HAL_LED_MODE_OFF || mode == HAL_LED_MODE_TOGGLE {
        SetMode(leds, mode);
      }
      state := ledState;
    }

    // HalLedSet for ON, OFF and TOGGLE.
    method SetMode(leds: bv8, mode: bv8)
      requires Valid()
      requires mode == HAL_LED_MODE_ON || mode == HAL_LED_MODE_OFF || mode == HAL_LED_MODE_TOGGLE
      modifies this`ledState, table, pins
      ensures Valid()
      ensures State() == SetMask(old(State()), leds, RequestOf(mode))
    {
      SetAll(leds, mode);
    }

    // The scan of HalLedSet.
    method SetAll(leds: bv8, mode: bv8)
      requires Valid()
      requires mode == HAL_LED_MODE_ON || mode == HAL_LED_MODE_OFF || mode == HAL_LED_MODE_TOGGLE
      modifies this`ledState, table, pins
      ensures Valid()
      ensures forall j | 0 <= j < 4 ::
          At(j) == if Sel(leds, j) then SetOne(old(At(j)), RequestOf(mode)) else old(At(j))
    {
      ghost var was := Leds(4);
      var led, rest, k := 1, leds & HAL_LED_ALL, 0;
      while rest != 0
        invariant Valid() && Scan(k, led, rest, leds)
        invariant forall j | 0 <= j < 4 ::
            At(j) == if j < k && Sel(leds, j) then SetOne(was[j], RequestOf(mode)) else was[j]
        decreases 4 - k
      {
        ScanStep(k, led, rest, leds);
        if rest & led != 0 {
          SetLed(k, led, mode);
          rest := rest ^ led;
        }
        led := led << 1;
        k := k + 1;
      }
      ScanDone(k, led, rest, leds);
    }

    // One LED's turn in HalLedSet.
    method SetLed(k: nat, led: bv8, mode: bv8)
      requires Valid() && k < 4 && led == Bit(k)
      requires mode == HAL_LED_MODE_ON || mode == HAL_LED_MODE_OFF || mode == HAL_LED_MODE_TOGGLE
      modifies this`ledState, table, pins
      ensures Valid()
      ensures At(k) == SetOne(old(At(k)), RequestOf(mode))
      ensures forall j | 0 <= j < 4 && j != k :: At(j) == old(At(j))
    {
      BitSelects(k);
      if mode != HAL_LED_MODE_TOGGLE {
        table[k] := table[k].(mode := mode);
      } else {
        table[k] := table[k].(mode := table[k].mode ^ HAL_LED_MODE_ON);
      }
      OnOff(led, table[k].mode);
    }

    // HalLedBlink
    method Blink(leds: bv8, numBlinks: uint8, percent: uint8, period: uint16, now: nat)
      requires Valid()
      modifies this`ledState, this`preBlinkState, this`timer, table, pins
      ensures Valid()
      ensures State() == HalBlink(old(State()), leds, numBlinks, percent, period, now)
      decreases true, 0
    {
      if leds != 0 && percent != 0 && period != 0 {
        if percent < 100 {
          BlinkAll(leds, numBlinks, percent, period, now);
          timer := timer.Stop();
          timer := timer.Post();
        } else {
          var _ := Set(leds, HAL_LED_MODE_ON, now);
        }
      } else {
        var _ := Set(leds, HAL_LED_MODE_OFF, now);
      }
    }

    // The scan of HalLedBlink.
    method BlinkAll(leds: bv8, numBlinks: uint8, percent: uint8, period: uint16, now: nat)
      requires Valid() && 0 < percent < 100 && 0 < period
      modifies this`preBlinkState, table
      ensures Valid()
      ensures forall j | 0 <= j < 4 ::
          At(j) == if Sel(leds, j) then BlinkOne(old(At(j)), numBlinks, percent, period, now) else old(At(j))
    {
      ghost var was := Leds(4);
      var led, rest, k := 1, leds & HAL_LED_ALL, 0;
      while rest != 0
        invariant Valid() && Scan(k, led, rest, leds)
        invariant forall j | 0 <= j < 4 ::
            At(j) == if j < k && Sel(leds, j) then BlinkOne(was[j], numBlinks, percent, period, now) else was[j]
        decreases 4 - k
      {
        ScanStep(k, led, rest, leds);
        if rest & led != 0 {
          BlinkLed(k, led, numBlinks, percent, period, now);
          rest := rest ^ led;
        }
        led := led << 1;
        k := k + 1;
      }
      ScanDone(k, led, rest, leds);
    }

    // One LED's turn in HalLedBlink.
    method BlinkLed(k: nat, led: bv8, numBlinks: uint8, percent: uint8, period: uint16, now: nat)
      requires Valid() && k < 4 && led == Bit(k)
      requires 0 < percent < 100 && 0 < period
      modifies this`preBlinkState, table
      ensures Valid()
      ensures At(k) == BlinkOne(old(At(k)), numBlinks, percent, period, now)
      ensures forall j | 0 <= j < 4 && j != k :: At(j) == old(At(j))
    {
      if table[k].mode < HAL_LED_MODE_BLINK {
        SavePreBlink(k, led);
      }
      var sts := table[k];
      sts := sts.(mode := HAL_LED_MODE_OFF, time := period, onPct := percent, todo := numBlinks);
      if numBlinks == 0 {
        sts := sts.(mode := sts.mode | HAL_LED_MODE_FLASH);
      }
      sts := sts.(next := now);
      sts := sts.(mode := sts.mode | HAL_LED_MODE_BLINK);
      table[k] := sts;
    }

    // preBlinkState |= (led & HalLedState)
    method SavePreBlink(k: nat, led: bv8)
      requires k < 4 && led == Bit(k)
      modifies this`preBlinkState
      ensures forall j | 0 <= j < 4 ::
          Sel(preBlinkState, j) == (old(Sel(preBlinkState, j)) || (j == k && Sel(ledState, j)))
    {
      SavedBit(preBlinkState, ledState, k);
      preBlinkState := preBlinkState | (led & ledState);
    }

    // HalLedUpdate
    method Update(now: nat)
      requires Valid()
      modifies this`ledState, this`preBlinkState, this`timer, table, pins
      ensures Valid()
      ensures State() == HalUpdate(old(State()), now)
    {
      if !sleepActive {
        ghost var was := State();
        UpdateAwake(now, was.leds, Waits(was, now), HalUpdate(was, now));
      }
    }

    // All of it while the LEDs are awake, towards the state `e` that it leads to.
    method UpdateAwake(now: nat, ghost was: seq<Led>, ghost waits: seq<nat>, ghost e: Engine)
      requires Valid() && |was| == 4 && |waits| == 4 && |e.leds| == 4 && |e.slept| == 4
      requires forall j | 0 <= j < 4 :: At(j) == was[j] && WellFormed(was[j]) && waits[j] == WaitOne(was[j], now)
      requires forall j | 0 <= j < 4 :: e.leds[j] == UpdateOne(was[j], now) && e.slept[j] == Sel(sleepLedState, j)
      requires e.sleeping == sleepActive
      requires e.timer == if MinPos(waits) == 0 then timer else timer.Start(now, MinPos(waits))
      modifies this`ledState, this`preBlinkState, this`timer, table, pins
      ensures Valid() && State() == e
    {
      var next := UpdateAll(now, was, waits, e.leds);
      if next != 0 {
        timer := timer.Start(now, next);
      }
      Assembled(e);
    }

    // The scan of HalLedUpdate; returns the shortest positive wait it meets.
    method UpdateAll(now: nat, ghost was: seq<Led>, ghost waits: seq<nat>, ghost goal: seq<Led>)
      returns (next: uint16)
      requires Valid() && |was| == 4 && |waits| == 4 && |goal| == 4
      requires forall j | 0 <= j < 4 :: At(j) == was[j] && WellFormed(was[j]) && waits[j] == WaitOne(was[j], now)
      requires forall j | 0 <= j < 4 :: goal[j] == UpdateOne(was[j], now)
      modifies this`ledState, this`preBlinkState, this`timer, table, pins
      ensures Valid() && timer == old(timer)
      ensures forall j | 0 <= j < 4 :: At(j) == goal[j]
      ensures next == MinPos(waits)
    {
      var led: bv8, leds: bv8, k := 1, HAL_LED_ALL, 0;
      next := 0;
      while leds != 0
        invariant Valid() && Scan(k, led, leds, HAL_LED_ALL)
        invariant timer == old(timer)
        invariant forall j | 0 <= j < 4 :: At(j) == if j < k then goal[j] else was[j]
        invariant next == MinPos(waits[..k])
        decreases 4 - k
      {
        ScanStep(k, led, leds, HAL_LED_ALL);
        AllSelected();
        MinPosStep(waits, k);
        next := UpdateTurn(k, led, now, next, was[k], waits[k]);
        leds := leds ^ led;
        led := led << 1;
        k := k + 1;
      }
      ScanDone(k, led, leds, HAL_LED_ALL);
      AllSelected();
      assert waits[..4] == waits;
    }

    // One LED's turn in HalLedUpdate.
    method UpdateTurn(k: nat, led: bv8, now: nat, next0: uint16, ghost l: Led, ghost w: nat) returns (next: uint16)
      requires Valid() && k < 4 && led == Bit(k)
      requires l == At(k) && w == WaitOne(l, now)
      modifies this`ledState, this`preBlinkState, this`timer, table, pins
      ensures Valid() && timer == old(timer)
      ensures At(k) == UpdateOne(l, now)
      ensures forall j | 0 <= j < 4 && j != k :: At(j) == old(At(j))
      ensures next == if next0 == 0 || (w != 0 && w < next0) then w else next0
    {
      next := next0;
      if table[k].mode & HAL_LED_MODE_BLINK != 0 {
        var wait := UpdateLed(k, led, now);
        if next == 0 || (wait != 0 && wait < next) {
          next := wait;
        }
      }
    }

    // A blinking LED's turn in HalLedUpdate; returns the wait it computes.
    method UpdateLed(k: nat, led: bv8, now: nat) returns (wait: uint16)
      requires Valid() && k < 4 && led == Bit(k)
      requires table[k].mode & HAL_LED_MODE_BLINK != 0
      modifies this`ledState, this`preBlinkState, this`timer, table, pins
      ensures Valid() && timer == old(timer)
      ensures At(k) == UpdateOne(old(At(k)), now)
      ensures forall j | 0 <= j < 4 && j != k :: At(j) == old(At(j))
      ensures wait == WaitOne(old(At(k)), now)
    {
      if now >= table[k].next {
        var sts, pct := ChangePhase(k, led, At(k));
        if sts.mode & HAL_LED_MODE_BLINK != 0 {
          wait := pct * sts.time / 100 % 0x1_0000;
          table[k] := sts.(next := now + wait);
        } else {
          wait := 0;
          table[k] := sts;
          Restore(k, led);
        }
      } else {
        wait := (table[k].next - now) % 0x1_0000;
      }
    }

    // The phase that begins now: the new control entry, not yet stored, and its
    // share of the cycle; the LED is driven at once.
    method ChangePhase(k: nat, led: bv8, ghost l: Led) returns (sts: Control, pct: uint8)
      requires Valid() && k < 4 && led == Bit(k)
      requires l == At(k) && l.blink
      modifies this`ledState, pins
      ensures LegalMode(sts.mode)
      ensures LedOf(sts, Sel(ledState, k), Sel(preBlinkState, k), pins[k]) ==
        if l.on then Show(l, false).(on := false, todo := if l.flash then l.todo else (l.todo + 255) % 0x100)
        else if l.todo == 0 && !l.flash then l.(blink := false)
        else Show(l, true).(on := true)
      ensures pct == if l.on then 100 - l.onPct else if l.todo == 0 && !l.flash then 0 else l.onPct
      ensures forall j | 0 <= j < 4 && j != k :: At(j) == old(At(j))
    {
      BitSelects(k);
      sts, pct := table[k], 0;
      PhaseBits(sts.mode);
      if sts.mode & HAL_LED_MODE_ON != 0 {
        pct := 100 - sts.onPct;
        sts := sts.(mode := sts.mode & !HAL_LED_MODE_ON);
        OnOff(led, HAL_LED_MODE_OFF);
        if sts.mode & HAL_LED_MODE_FLASH == 0 {
          sts := sts.(todo := (sts.todo + 255) % 0x100);
        }
      } else if sts.todo == 0 && sts.mode & HAL_LED_MODE_FLASH == 0 {
        sts := sts.(mode := sts.mode ^ HAL_LED_MODE_BLINK);
      } else {
        pct := sts.onPct;
        sts := sts.(mode := sts.mode | HAL_LED_MODE_ON);
        OnOff(led, HAL_LED_MODE_ON);
      }
    }

    // The end of a blink: back to the state before it, saved bit cleared. For ON
    // and OFF, HalLedSet is its scan.
    method Restore(k: nat, led: bv8)
      requires Valid() && k < 4 && led == Bit(k)
      modifies this`ledState, this`preBlinkState, this`timer, table, pins
      ensures Valid() && timer == old(timer)
      ensures At(k) == SetOne(old(At(k)), if old(At(k)).saved then On else Off).(saved := false)
      ensures forall j | 0 <= j < 4 && j != k :: At(j) == old(At(j))
    {
      BitTests(preBlinkState, k);
      BitSelects(k);
      SetAll(led, if preBlinkState & led != 0 then HAL_LED_MODE_ON else HAL_LED_MODE_OFF);
      ClearPreBlink(k, led);
    }

    // preBlinkState &= (led ^ 0xFF)
    method ClearPreBlink(k: nat, led: bv8)
      requires k < 4 && led == Bit(k)
      modifies this`preBlinkState
      ensures forall j | 0 <= j < 4 :: Sel(preBlinkState, j) == (old(Sel(preBlinkState, j)) && j != k)
    {
      SavedBit(preBlinkState, 0, k);
      preBlinkState := preBlinkState & (led ^ 0xFF);
    }

    // HalLedEnterSleep
    method EnterSleep()
      requires Valid()
      modifies this, pins
      ensures Valid()
      ensures State() == HalEnterSleep(old(State()))
    {
      Darken(HalEnterSleep(State()));
    }

    // All of it, towards the state `e` that it leads to.
    method Darken(ghost e: Engine)
      requires Valid() && |e.leds| == 4 && |e.slept| == 4 && e.sleeping && e.timer == timer
      requires forall k | 0 <= k < 4 :: e.leds[k] == Show(At(k), false) && e.slept[k] == pins[k]
      modifies this, pins
      ensures Valid() && State() == e
    {
      sleepActive := true;
      sleepLedState := ReadPins();
      AllSelected();
      OnOff(HAL_LED_ALL, HAL_LED_MODE_OFF);
      Assembled(e);
    }

    // The state of each LED, as the bits of a mask.
    method ReadPins() returns (state: bv8)
      requires pins.Length == 4
      ensures forall k | 0 <= k < 4 :: Sel(state, k) == pins[k]
    {
      state := 0;
      state := state | Level(pins[0]);
      state := state | (Level(pins[1]) << 1);
      state := state | (Level(pins[2]) << 2);
      state := state | (Level(pins[3]) << 3);
      Gathered(pins[0], pins[1], pins[2], pins[3]);
    }

    // HalLedExitSleep: the update runs before sleepActive is cleared.
    method ExitSleep(now: nat)
      requires Valid()
      modifies this, table, pins
      ensures Valid()
      ensures State() == HalExitSleep(old(State()), now)
    {
      Relight();
      Update(now);
      sleepActive := false;
    }

    // Load back the saved state.
    method Relight()
      requires Valid()
      modifies this`ledState, pins
      ensures Valid()
      ensures State() == HalWake(old(State()))
    {
      OnOff(sleepLedState, HAL_LED_MODE_ON);
    }
  }
}
