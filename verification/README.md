# The AT command firmware, modelled and proved

This project models the stateful parts of the ZigBee AT command firmware for
the CC2530 (`Projects/zstack/AT commands/project/Source`) and proves what they
do over whole runs: the LED blink engine, the formatted printing routines, the
endpoint lists, boot loop, experiment and event dispatcher of the application,
two cluster library endpoints and the DHT11 sensor reader.

`dafny verify dfyconfig.toml` checks everything.

## How it is built

Each component comes in up to three layers.

1. *Meaning*: functions on immutable values that say what one call does, and,
   where the code is told from its effect rather than its steps (formats,
   numbers, lists, wait loops), what its result stands for.
2. *Code*: classes and methods with the source's own fields, loops, masks,
   pointers and buffers, each proved to have that effect on the new state.
3. *Runs*: the events that can happen to a component in any order, and lemmas
   by induction over every sequence of them.

The functions of the first layer are pinned by lemmas that do not mention them:
what a call leaves in each field, what a text reads back as, which levels on a
line come out as which byte.

| file | source | layer |
|---|---|---|
| `Osal.dfy` | timers and events of the operating system layer | meaning |
| `Sequences.dfy` | facts about sequences | |
| `HalLedModel.dfy` | `hal/hal_led.c` | meaning |
| `HalLedDriver.dfy` | `hal/hal_led.c` | code |
| `HalLedRuns.dfy`, `HalLedLifecycle.dfy` | `hal/hal_led.c` | runs |
| `HalLedCalls.dfy` | `hal/hal_led.c`, each call field by field | runs |
| `HalLedStalls.dfy`, `HalLedPunctual.dfy` | `hal/hal_led.c`, blinking that stops and blinking on time | runs |
| `PrintfModel.dfy` | `AT_printf.c` | meaning |
| `PrintfDriver.dfy` | `AT_printf.c` | code |
| `PrintfLaws.dfy`, `PrintfGrammar.dfy`, `PrintfConversions.dfy` | `AT_printf.c` | laws, round trips |
| `Endpoints.dfy`, `EndpointLaws.dfy` | `AT_App.c`, lists and boot loop | meaning and code; runs |
| `Experiment.dfy` | `AT_App.c`, power saving experiment | all three |
| `Dispatcher.dfy` | `AT_App.c`, event dispatcher | all three |
| `ZclEndpoint.dfy` | what the two endpoints share | meaning and code |
| `Temperature.dfy` | `AT_ZCL_temperature.c`, on top of the LED driver | all three |
| `Switch.dfy` | `AT_ZCL_ONOFF_SWITCH.c`, on top of the LED driver | all three |
| `Dht11.dfy` | `AT_DHT11.c` | all three |
| `Dht11Line.dfy`, `Dht11Lost.dfy` | `AT_DHT11.c`, on a line that sends a frame, and on one that is lost | runs |

Small methods that do what one function says, step by step, such as the three
of the experiment, the case split over a message or the publication of a
frame, have no row of their own below: what matters about them is what the
rows about their runs state.

The environment is what varies freely: the clock reading of a call, the order of
events, commands and their parameters, the outcome of every read of a pin, a
stored flag or a sensor. A timer is a deadline plus a pending flag: stopping it
clears the deadline only. What is sent, printed or called is appended to a trace.
LEDs are taken with `BLINK_LEDS` defined and `HAL_LED` true. Integers have the
source's width wherever a store cuts them: 8-bit counters, modes and sums, 16-bit
phase lengths and numbers, 16-bit event masks.

## Where the code is not what it seems

Some plausible statements about this code fail. For these the exact condition
is proved.

- A TOGGLE of a blinking LED hands mode 2, 3, 6 or 7 to `HalLedOnOff`, which
  darkens the pin and sets the cached bit: `HalLedRuns.TruthfulExactly`,
  `HalLedRuns.OwingExactly`.
- The saved state of an interrupted blink is not cleared before another blink
  finishes: `HalLedLifecycle.RestoredAfterRun`.
- A phase that rounds to 0 ms makes updates come late, or stops the blinking for
  good: `HalLedRuns.WakingExactly`, `HalLedStalls.FreezesExactly`.
- The comment in `HalLedExitSleep` says that its update restarts blinking LEDs.
  It does not, since it runs while `sleepActive` is set:
  `HalLedLifecycle.SleepMissesExactly`.
- The comment on the digit buffer of `printi` says that six bytes are enough for a
  16-bit int: `PrintfLaws.NumeralLength`, `PrintfDriver.Printi`.
- A dash together with a zero flag fills with zeros on the right, where section
  7.19.6.1 of ISO/IEC 9899:1999 lets the dash win: `PrintfLaws.NumberLayout`,
  `PrintfLaws.NumberReadsBack`.
- A format that ends inside a directive makes `print` step past its
  terminator: `PrintfLaws.CutOffExactly`.
- A failed read of a stored flag leaves a variable that was never set, or the flag
  of the endpoint before: `EndpointLaws.FlagIsLastRead`.
- Registering a removed endpoint restores its membership, not its place in the
  list: `EndpointLaws.RegisterUndoes`.
- A measure event that is pending when the endpoint is switched off re-arms
  itself: `Temperature.OffSilencesExactly`, `Temperature.SamplingGoesOn`.
- The DHT11 checksum accepts some frames of a sensor that is lost, from the
  beginning or part of the way through: `Dht11Lost.LostHighExactly`,
  `Dht11Lost.LostLowExactly`.

## Model

| member | source | states |
|---|---|---|
| `HalLedLifecycle.BlinkLifecycle` | Projects/zstack/AT commands/project/Source/hal/hal_led.c:175-306 | A counted blink of n in 1..255 started on an LED that does not blink, in any engine run that leaves that LED alone: it is over after exactly 2n+1 due updates and not before, has entered its ON phase min(n, (b+1)/2) times after b of them, schedules n cycles in total, never runs ahead of the clock, and ends showing the saved bit, with that bit cleared |
| `HalLedPunctual.PunctualBlink` | Projects/zstack/AT commands/project/Source/hal/hal_led.c:175-326 | On time: a counted blink with phases of at least 1 ms, in any run that delivers each blink event when its timer expires and leaves that LED alone, whatever blinks beside it, blinks with an event to come as long as the clock is short of n cycles, is ended by the event delivered right then, and does not blink afterwards; that is due update number 2n+1 |
| `HalLedPunctual.RunOnCourse` | Projects/zstack/AT commands/project/Source/hal/hal_led.c:262-326 | In such runs the next change plus the phases left is the same moment throughout |
| `HalLedPunctual.CourseEnds` | Projects/zstack/AT commands/project/Source/hal/hal_led.c:282-306 | At that moment no phase is left, and the event delivered then is the one that ends the blink |
| `HalLedLifecycle.CountedLifecycle` | Projects/zstack/AT commands/project/Source/hal/hal_led.c:262-306 | The same course for one LED under updates at arbitrary times, the total phase time being n times T or, when the phases do not divide evenly, n times (T - 1) ms |
| `HalLedLifecycle.Course` | Projects/zstack/AT commands/project/Source/hal/hal_led.c:266-306 | From any point of a counted blink, the number of due updates left is 2*todo, plus 1 in the OFF phase; the blink ends exactly when they are used up |
| `HalLedLifecycle.CoursePhases` | Projects/zstack/AT commands/project/Source/hal/hal_led.c:271-290 | How many ON and OFF phases any number of due updates enters |
| `HalLedLifecycle.PhasesOwed` | Projects/zstack/AT commands/project/Source/hal/hal_led.c:271-290 | Phases entered plus phases still owed, and due updates served plus due updates left, are constant along a blink |
| `HalLedLifecycle.CourseTime` | Projects/zstack/AT commands/project/Source/hal/hal_led.c:294-295 | The waits stored along a blink add up to its ON and OFF phases |
| `HalLedLifecycle.CourseBound` | Projects/zstack/AT commands/project/Source/hal/hal_led.c:268-295 | Late updates only push a blink back: its next change is never earlier than its start plus the phases scheduled so far |
| `HalLedLifecycle.CycleMs` | Projects/zstack/AT commands/project/Source/hal/hal_led.c:273-294 | The two truncated phases of a cycle make up the period, or the period less 1 ms, and exactly when which |
| `HalLedLifecycle.Projection` | Projects/zstack/AT commands/project/Source/hal/hal_led.c:244-328 | An LED that no call names goes through exactly the updates that the blink event serves, whatever happens to the other LEDs |
| `HalLedLifecycle.RestoredExactly` | Projects/zstack/AT commands/project/Source/hal/hal_led.c:194-304 | After the blink the cached state is what it was before if and only if no stale saved bit of an interrupted blink was left on a dark LED |
| `HalLedLifecycle.SavedExactly` | Projects/zstack/AT commands/project/Source/hal/hal_led.c:194-304 | After any run, the bit of an LED in preBlinkState is set if and only if a blink was started on it while it was lit and none has finished on it since, or it was set before and none has finished |
| `HalLedLifecycle.RestoredAfterRun` | Projects/zstack/AT commands/project/Source/hal/hal_led.c:194-304 | So, after any past without a saved bit at its start: a finished blink brings back the state before it if and only if the LED was lit, or no blink of the lit LED had been cut short without a finished one since |
| `HalLedStalls.StallsExactly` | Projects/zstack/AT commands/project/Source/hal/hal_led.c:262-326 | A delivered blink event leaves no timer armed if and only if every LED has stopped blinking or begins a phase that rounds to 0 ms |
| `HalLedStalls.FreezesExactly` | Projects/zstack/AT commands/project/Source/hal/hal_led.c:262-326 | Exactly then the LEDs are frozen: for every further sequence of ticks and blink events they stay as they are |
| `HalLedStalls.NextEventChanges` | Projects/zstack/AT commands/project/Source/hal/hal_led.c:268-326 | Otherwise the next event, at the deadline that was armed, changes an LED that blinks |
| `HalLedStalls.FrozenShows` | Projects/zstack/AT commands/project/Source/hal/hal_led.c:271-306 | A frozen LED is lit if its ON phase was too short and dark if its OFF phase was, with its blink bit set and its saved bit untouched |
| `HalLedStalls.ShortPhaseFreezes` | Projects/zstack/AT commands/project/Source/hal/hal_led.c:294-326 | An instance: the only blink of an engine, its ON phase rounding to 0 ms, stays lit forever |
| `HalLedLifecycle.SleepKeeps` | Projects/zstack/AT commands/project/Source/hal/hal_led.c:260-328 | Asleep, blink events change nothing but use up the timer; the wake-up survives exactly when none was delivered |
| `HalLedLifecycle.SleepRoundTrip` | Projects/zstack/AT commands/project/Source/hal/hal_led.c:429-473 | Into sleep, any number of ticks and blink events, out of sleep: pins and control table are as before and HalLedState is what the pins say, hence as before if and only if it told the truth |
| `HalLedLifecycle.SleepMissesExactly` | Projects/zstack/AT commands/project/Source/hal/hal_led.c:459-473 | Leaving sleep restarts nothing, since the update runs while sleepActive is still set: a blinking LED will wake again if and only if no blink event was delivered during sleep |
| `HalLedRuns.NoMissedWakeUp` | Projects/zstack/AT commands/project/Source/hal/hal_led.c:202-326 | In every sleep-free run whose blinks have two phases of at least 1 ms, each blinking LED has the blink event pending or the timer armed no later than its next change |
| `HalLedRuns.WakingExactly` | Projects/zstack/AT commands/project/Source/hal/hal_led.c:262-326 | One delivered blink event leaves every blinking LED with a wake-up if and only if no LED begins a phase that rounds to 0 ms |
| `HalLedRuns.VanishesExactly` | Projects/zstack/AT commands/project/Source/hal/hal_led.c:268-310 | Which updates of a blinking LED compute a wait of 0 |
| `HalLedRuns.StalledForever` | Projects/zstack/AT commands/project/Source/hal/hal_led.c:260-326 | Without a pending event or an armed timer nothing ever changes again by itself |
| `HalLedRuns.MinPosIsLeast` | Projects/zstack/AT commands/project/Source/hal/hal_led.c:254-315 | The running value of next over the LEDs is the least positive wait, and 0 exactly when there is none |
| `HalLedRuns.WaitIsGap` | Projects/zstack/AT commands/project/Source/hal/hal_led.c:268-310 | The wait that an update computes is the distance to the next change it stores, and 0 for an LED that stops blinking |
| `HalLedRuns.TruthfulExactly` | Projects/zstack/AT commands/project/Source/hal/hal_led.c:118-399 | After any run, HalLedState agrees with the pin of an LED if and only if the last thing that drove that LED was not a TOGGLE while it blinked |
| `HalLedRuns.CounterWraps` | Projects/zstack/AT commands/project/Source/hal/hal_led.c:277-280 | The 8-bit blink counter wraps to 255 exactly in a due update that ends an ON phase of a counted blink that owes no cycle |
| `HalLedRuns.OwingExactly` | Projects/zstack/AT commands/project/Source/hal/hal_led.c:118-142 | The one way to such a state: toggling a counted blink during its last OFF phase |
| `HalLedRuns.CleanRuns` | Projects/zstack/AT commands/project/Source/hal/hal_led.c:118-321 | In a run without TOGGLE on a blinking LED, HalLedState equals the pins and no blink counter ever wraps |
| `HalLedRuns.StepLegal` | Projects/zstack/AT commands/project/Source/hal/hal_led.c:99-328 | Every event keeps the modes in {0,1,2,3,6,7} (FLASH only with BLINK), duty cycle and period of a blink in range, and every wait small enough for its 16-bit store |
| `HalLedRuns.PhasesFit` | Projects/zstack/AT commands/project/Source/hal/hal_led.c:252-295 | No phase length loses bits in its 16-bit store; the longest is 64879 ms |
| `HalLedRuns.Share` | Projects/zstack/AT commands/project/Source/hal/hal_led.c:99-473 | Every event acts on each LED on its own, by what its mask, the mode bits and the clock say for that LED |
| `HalLedRuns.BootAlert` | Projects/zstack/AT commands/project/Source/hal/hal_led.c:78-88 | HalLedInit establishes the invariants that the run theorems start from |
| `HalLedCalls.ToggleExactly` | Projects/zstack/AT commands/project/Source/hal/hal_led.c:118-399 | TOGGLE, field by field: an LED of the mask that does not blink gets mode, pin and cached bit inverted; one that blinks gets its ON bit inverted, a dark pin and a set cached bit; every other field, LED and the timer stay |
| `HalLedCalls.TogglesAlternate` | Projects/zstack/AT commands/project/Source/hal/hal_led.c:118-399 | In any run that only toggles a steady LED, whatever happens to the others, it is lit exactly when it was lit and the toggles are even in number, or dark and odd |
| `HalLedCalls.OnOffExactly` | Projects/zstack/AT commands/project/Source/hal/hal_led.c:118-143 | ON and OFF, field by field, also out of a blink |
| `HalLedCalls.OtherModes` | Projects/zstack/AT commands/project/Source/hal/hal_led.c:106-148 | Any other mode value changes nothing |
| `HalLedCalls.BlinkExactly` | Projects/zstack/AT commands/project/Source/hal/hal_led.c:175-212 | A started blink, field by field: period, duty cycle, count, continuous without one, due at once, the pin left alone, the saved bit kept or set; the timer is cancelled and the event pending |
| `HalLedCalls.BlinkSteady` | Projects/zstack/AT commands/project/Source/hal/hal_led.c:181-221 | Without on time, period or LED the call is OFF, with 100 percent or more it is ON |
| `HalLedCalls.ModesBlink` | Projects/zstack/AT commands/project/Source/hal/hal_led.c:106-116 | BLINK is one blink and FLASH fifty, of a second each and lit for 5 percent of it |
| `HalLedCalls.UpdateShowsPhase` | Projects/zstack/AT commands/project/Source/hal/hal_led.c:266-306 | A due update shows the phase it begins, the opposite of the one before, in mode, pin and cached bit; or ends the blink, exactly when no cycle is left, showing the saved bit |
| `HalLedCalls.UpdateArms` | Projects/zstack/AT commands/project/Source/hal/hal_led.c:254-327 | An update arms the timer with the least positive wait, leaves it as it is when there is none, and does nothing asleep |
| `HalLedCalls.OnPhaseIsLit` | Projects/zstack/AT commands/project/Source/hal/hal_led.c:262-321 | Over every run without sleep and without a toggle while blinking, an LED in its ON phase is lit |
| `HalLedCalls.ContinuousGoesOn` | Projects/zstack/AT commands/project/Source/hal/hal_led.c:201-290 | A blink without a count never ends by itself |
| `HalLedCalls.InitDarkens` | Projects/zstack/AT commands/project/Source/hal/hal_led.c:78-88 | After HalLedInit at power-up all four LEDs are off and dark |
| `HalLedCalls.EnterSleepExactly` | Projects/zstack/AT commands/project/Source/hal/hal_led.c:429-448 | Going to sleep darkens every LED, records which were lit and keeps the rest |
| `HalLedCalls.DarkAsleep` | Projects/zstack/AT commands/project/Source/hal/hal_led.c:260-448 | They stay dark through any ticks and blink events |
| `HalLedDriver.LedDriver.constructor` | Projects/zstack/AT commands/project/Source/hal/hal_led.c:34-57 | The zeroed control table, masks and pins at power-up |
| `HalLedDriver.LedDriver.Init` | Projects/zstack/AT commands/project/Source/hal/hal_led.c:78-88 | HalLedInit, as the effect on the abstract engine |
| `HalLedDriver.LedDriver.Set` | Projects/zstack/AT commands/project/Source/hal/hal_led.c:99-160 | HalLedSet in place (mask-shifting loop over the control table) has the stated effect on all four LEDs and the timer, and returns HalLedState |
| `HalLedDriver.LedDriver.SetAll` | Projects/zstack/AT commands/project/Source/hal/hal_led.c:122-143 | The loop changes exactly the LEDs of the mask, each as by one request |
| `HalLedDriver.LedDriver.SetLed` | Projects/zstack/AT commands/project/Source/hal/hal_led.c:128-140 | One turn of it changes one LED, with the mode handed on to HalLedOnOff as it is stored |
| `HalLedDriver.LedDriver.Blink` | Projects/zstack/AT commands/project/Source/hal/hal_led.c:175-232 | HalLedBlink in place: duty cycle and period cases, control entries, saved bits, cancelled timer and posted event |
| `HalLedDriver.LedDriver.BlinkAll` | Projects/zstack/AT commands/project/Source/hal/hal_led.c:185-208 | The loop starts a blink on exactly the LEDs of the mask |
| `HalLedDriver.LedDriver.BlinkLed` | Projects/zstack/AT commands/project/Source/hal/hal_led.c:191-205 | One turn of it, with the previous state saved only when the LED was not blinking |
| `HalLedDriver.LedDriver.Update` | Projects/zstack/AT commands/project/Source/hal/hal_led.c:244-328 | HalLedUpdate in place: all four LEDs updated, the timer re-armed with the least positive wait |
| `HalLedDriver.LedDriver.UpdateAll` | Projects/zstack/AT commands/project/Source/hal/hal_led.c:262-321 | The loop updates every LED and returns the minimum of the positive waits |
| `HalLedDriver.LedDriver.UpdateLed` | Projects/zstack/AT commands/project/Source/hal/hal_led.c:266-310 | One turn of it: phase change, counter, end of blink, and the wait |
| `HalLedDriver.LedDriver.Restore` | Projects/zstack/AT commands/project/Source/hal/hal_led.c:301-304 | The end of a blink sets the LED to its saved bit and clears that bit |
| `HalLedDriver.LedDriver.OnOff` | Projects/zstack/AT commands/project/Source/hal/hal_led.c:340-399 | Pins are lit only by mode ON, the cached bits are set by every mode but OFF |
| `HalLedDriver.LedDriver.EnterSleep` | Projects/zstack/AT commands/project/Source/hal/hal_led.c:429-448 | Pins are recorded, then all LEDs are turned off |
| `HalLedDriver.LedDriver.ExitSleep` | Projects/zstack/AT commands/project/Source/hal/hal_led.c:459-473 | Recorded LEDs are lit again; the update runs before sleepActive is cleared |
| `HalLedDriver.ScanStep` | Projects/zstack/AT commands/project/Source/hal/hal_led.c:122-142 | The shifted one-bit mask and the remaining mask of the scan loops visit LED k in turn k |
| `HalLedDriver.ScanDone` | Projects/zstack/AT commands/project/Source/hal/hal_led.c:126-143 | When the remaining mask is empty, no selected LED has been skipped |
| `PrintfLaws.NumberReadsBack` | Projects/zstack/AT commands/project/Source/AT_printf.c:53-127 | Reading a printed number back, as strtol would, gives the value (%d) or the value modulo 2^16 (%u, %x, %X) for every width and padding, except that zeros to the right multiply it by base^d for d fill characters |
| `PrintfLaws.NumberLayout` | Projects/zstack/AT commands/project/Source/AT_printf.c:57-126 | Where sign, fill and digits of a number stand: the sign ahead of zeros, blanks ahead of the sign, all fill on one side |
| `PrintfLaws.NumberWidth` | Projects/zstack/AT commands/project/Source/AT_printf.c:57-126 | A number is exactly max(width, unpadded length) characters long |
| `PrintfLaws.FieldWidth` | Projects/zstack/AT commands/project/Source/AT_printf.c:53-81 | So is a string |
| `PrintfLaws.NumeralLength` | Projects/zstack/AT commands/project/Source/AT_printf.c:83-124 | An unpadded 16-bit number has at most six characters, so seven bytes would suffice; it has six, one too many for the six-byte buffer with its NUL, exactly for signed decimals of -10000 and below |
| `PrintfModel.DigitCount` | Projects/zstack/AT commands/project/Source/AT_printf.c:107-113 | In any base 2..36 a number has at most n digits if and only if it is below base^n |
| `PrintfLaws.DigitsValue` | Projects/zstack/AT commands/project/Source/AT_printf.c:107-113 | The digits of every number in every base 2..36 evaluate to it |
| `PrintfLaws.DigitsCase` | Projects/zstack/AT commands/project/Source/AT_printf.c:109-166 | Digits beyond 9 are letters of the case asked for, and below the base |
| `PrintfConversions.NumberConversion` | Projects/zstack/AT commands/project/Source/AT_printf.c:53-173 | What each number conversion prints, told from the text: read back in base 10 it is i for %d and i modulo 2^16 for %u, in base 16 i modulo 2^16 for %x and %X, for every width and padding (zeros to the right multiply it by the base for each character of fill); and it is as long as the width, or as the text without one |
| `PrintfConversions.StreamedNumber` | Projects/zstack/AT commands/project/Source/AT_printf.c:129-199 | The same for the stream of a format that is one such directive |
| `PrintfConversions.NumberCharacters` | Projects/zstack/AT commands/project/Source/AT_printf.c:86-173 | %d, %u, %x and %X print blanks and digits of their base only, lower case for %x, upper case for %X, a minus sign for %d alone |
| `PrintfConversions.NumberIsShort` | Projects/zstack/AT commands/project/Source/AT_printf.c:93-124 | Unpadded, zero is one digit and no number has a digit too many |
| `PrintfConversions.StringConversion` | Projects/zstack/AT commands/project/Source/AT_printf.c:53-156 | %s prints the string or "(null)", filled up on the side the flags say, with the character they say |
| `PrintfConversions.CharConversion` | Projects/zstack/AT commands/project/Source/AT_printf.c:174-180 | So does %c with the character of the low eight bits, or nothing for a NUL |
| `PrintfConversions.LiteralText` | Projects/zstack/AT commands/project/Source/AT_printf.c:135-186 | Other characters and the doubled percent sign print themselves, unknown conversions nothing, without taking an argument |
| `PrintfConversions.OneArgumentEach` | Projects/zstack/AT commands/project/Source/AT_printf.c:153-180 | A format takes one argument for each known conversion in it |
| `PrintfConversions.SpelledAlone` | Projects/zstack/AT commands/project/Source/AT_printf.c:135-180 | Every directive has a format that is this directive and nothing else |
| `PrintfLaws.PrintAppend` | Projects/zstack/AT commands/project/Source/AT_printf.c:129-191 | print(f + g) is print(f) followed by print(g) on the arguments left over, when f ends on a directive boundary |
| `PrintfLaws.ParseAppend` | Projects/zstack/AT commands/project/Source/AT_printf.c:135-187 | After a complete format, whatever follows is read on its own |
| `PrintfLaws.TextAppend` | Projects/zstack/AT commands/project/Source/AT_printf.c:153-187 | The text of two directive lists in a row, and the arguments each takes |
| `PrintfLaws.FirstDirective` | Projects/zstack/AT commands/project/Source/AT_printf.c:135-180 | A whole directive means the same whatever follows it |
| `PrintfLaws.CutOffExactly` | Projects/zstack/AT commands/project/Source/AT_printf.c:135-152 | print steps past the terminator if and only if the format is a complete one followed by a percent sign, an optional dash and decimal digits up to the end, not both missing |
| `PrintfLaws.UnfinishedExactly` | Projects/zstack/AT commands/project/Source/AT_printf.c:141-152 | Flags and width run up to the end of the text exactly for such directives |
| `PrintfGrammar.GrammarReadsBack` | Projects/zstack/AT commands/project/Source/AT_printf.c:135-180 | Every list of directives has a spelling that print reads as exactly that list |
| `PrintfGrammar.SpellReadsBack` | Projects/zstack/AT commands/project/Source/AT_printf.c:136-180 | So has every single directive, in front of any other format |
| `PrintfGrammar.SpecReadsBack` | Projects/zstack/AT commands/project/Source/AT_printf.c:141-152 | Dash, zero flag and decimal width are read as they were spelled |
| `PrintfDriver.Print` | Projects/zstack/AT commands/project/Source/AT_printf.c:129-191 | print emits the concatenation of its directives' texts, returns their length, takes one argument per conversion, overruns exactly on a cut-off format, writes in front of the digit buffer exactly for a too long number, and terminates a memory target with NUL when it has not overrun |
| `PrintfDriver.PrintAll` | Projects/zstack/AT commands/project/Source/AT_printf.c:135-188 | Its loop, for any format and arguments whose meaning is given |
| `PrintfDriver.Printf` | Projects/zstack/AT commands/project/Source/AT_printf.c:193-199 | The stream of printf is the text of the format, its result the length |
| `PrintfDriver.Sprintf` | Projects/zstack/AT commands/project/Source/AT_printf.c:201-207 | sprintf stores the same text, with a NUL behind it |
| `PrintfDriver.Turn` | Projects/zstack/AT commands/project/Source/AT_printf.c:135-187 | One turn of the loop prints the text of one directive and leaves the rest of the format and of the arguments as they were |
| `PrintfDriver.Directive` | Projects/zstack/AT commands/project/Source/AT_printf.c:138-180 | The same for a directive with flags and width |
| `PrintfDriver.ReadDirective` | Projects/zstack/AT commands/project/Source/AT_printf.c:138-180 | The pointer ends up on the conversion character that the grammar gives, or on the terminator |
| `PrintfDriver.ReadSpec` | Projects/zstack/AT commands/project/Source/AT_printf.c:141-152 | The flag and width loops compute the padding and the decimal value of the width |
| `PrintfDriver.ReadWidth` | Projects/zstack/AT commands/project/Source/AT_printf.c:149-152 | The width loop evaluates a maximal run of decimal digits |
| `PrintfDriver.Convert` | Projects/zstack/AT commands/project/Source/AT_printf.c:153-180 | Each conversion character prints its argument in its base, sign and letter case |
| `PrintfDriver.Printi` | Projects/zstack/AT commands/project/Source/AT_printf.c:86-127 | printi emits the padded number, returns its length, and writes in front of its buffer exactly for i <= -10000 in signed decimal with the sign in the buffer |
| `PrintfDriver.Emit` | Projects/zstack/AT commands/project/Source/AT_printf.c:115-126 | Its end: a sign ahead of zeros, then what is in the buffer, padded |
| `PrintfDriver.FillBuffer` | Projects/zstack/AT commands/project/Source/AT_printf.c:99-124 | The six-byte buffer, filled from its end, holds the digits and the sign where it belongs there |
| `PrintfDriver.FillDigits` | Projects/zstack/AT commands/project/Source/AT_printf.c:107-113 | The division loop, for any number, base 2..36 and buffer: the digits end up most significant first right before the starting point, and nothing else is written |
| `PrintfDriver.Prints` | Projects/zstack/AT commands/project/Source/AT_printf.c:53-81 | prints emits the padded string and returns its length |
| `PrintfDriver.Copy` | Projects/zstack/AT commands/project/Source/AT_printf.c:71-74 | Its middle loop emits the string |
| `PrintfDriver.Repeat` | Projects/zstack/AT commands/project/Source/AT_printf.c:65-78 | Its padding loops emit the fill and use the width up |
| `PrintfDriver.Sink.PrintChar` | Projects/zstack/AT commands/project/Source/AT_printf.c:39-48 | One more character, through the moving pointer or to putchar |
| `EndpointLaws.RunConserves` | Projects/zstack/AT commands/project/Source/AT_App.c:273-350 | Over any sequence of removals and registrations no endpoint node is lost, doubled or made up, so their number stays too |
| `EndpointLaws.RunSeparate` | Projects/zstack/AT commands/project/Source/AT_App.c:273-350 | The two lists stay free of repetitions and disjoint |
| `EndpointLaws.RunOthers` | Projects/zstack/AT commands/project/Source/AT_App.c:273-350 | Nodes that no call names stay in their list in their order |
| `EndpointLaws.LookupStays` | Projects/zstack/AT commands/project/Source/AT_App.c:352-382 | With unique numbers, AT_af_get_ep returns the same node after any sequence of moves |
| `EndpointLaws.LookupFinds` | Projects/zstack/AT commands/project/Source/AT_App.c:352-382 | It returns null exactly when no node of either list has the number |
| `EndpointLaws.RegisterUndoes` | Projects/zstack/AT commands/project/Source/AT_App.c:273-350 | Registering what was just removed puts the node at the head of the active list: the same lists if and only if it was there before |
| `EndpointLaws.RemoveExactly` | Projects/zstack/AT commands/project/Source/AT_App.c:273-309 | The first active node with the number goes to the head of the removed list, the others keep their order; for a number outside 1 to 240 or in no active node nothing changes |
| `EndpointLaws.RegisterExactly` | Projects/zstack/AT commands/project/Source/AT_App.c:314-350 | The reverse |
| `EndpointLaws.LookupExactly` | Projects/zstack/AT commands/project/Source/AT_App.c:352-382 | The first match of the removed list, or else of the active one, or else null |
| `EndpointLaws.CallsExactly` | Projects/zstack/AT commands/project/Source/AT_App.c:184-197 | One call for each configured endpoint, in order, enabling it exactly when its flag is 1 |
| `EndpointLaws.BootOutcome` | Projects/zstack/AT commands/project/Source/AT_App.c:180-198 | After the boot loop, a registered endpoint is in the removed list if and only if some configured slot with its number has a flag other than 1, and in the active list otherwise |
| `EndpointLaws.BootOfFirmware` | Projects/zstack/AT commands/project/Source/AT_App.c:180-198 | For the five endpoints of the firmware: removed if and only if its own flag is not 1 |
| `EndpointLaws.BootSeparate` | Projects/zstack/AT commands/project/Source/AT_App.c:180-198 | The boot loop keeps the nodes, and the lists disjoint |
| `EndpointLaws.FlagIsLastRead` | Projects/zstack/AT commands/project/Source/AT_App.c:183-191 | A failed read of stored flags leaves the variable: the flag used is the last one read, or what the stack held |
| `Endpoints.EndpointLists.constructor` | Projects/zstack/AT commands/project/Source/AT_App.c:28 | The lists at start: what was registered, and nothing removed |
| `Endpoints.EndpointLists.RemoveEp` | Projects/zstack/AT commands/project/Source/AT_App.c:273-309 | In-place relinking: the first match moves to the head of the removed list, both lists stay well linked and acyclic; a failed call changes nothing; the status |
| `Endpoints.EndpointLists.RegisterEp` | Projects/zstack/AT commands/project/Source/AT_App.c:314-350 | The reverse |
| `Endpoints.EndpointLists.GetEp` | Projects/zstack/AT commands/project/Source/AT_App.c:352-382 | The first match of the removed list, then of the active one |
| `Endpoints.EndpointLists.EpNum` | Projects/zstack/AT commands/project/Source/AT_App.c:386-407 | The number of nodes of both lists, in 8 bits |
| `Endpoints.EndpointLists.HandleZclEp` | Projects/zstack/AT commands/project/Source/AT_App.c:180-198 | The boot loop over the configured endpoints, and exactly one enable or disable call for each, in order |
| `Endpoints.EndpointLists.HandleOne` | Projects/zstack/AT commands/project/Source/AT_App.c:186-196 | One turn of it |
| `Endpoints.MoveNode` | Projects/zstack/AT commands/project/Source/AT_App.c:282-307 | Search, unlink and push on linked nodes realise the move between two sequences |
| `Endpoints.Search` | Projects/zstack/AT commands/project/Source/AT_App.c:282-307 | The search stops at the first match and its predecessor |
| `Endpoints.Unlink` | Projects/zstack/AT commands/project/Source/AT_App.c:294-296 | The list without the match, head or not |
| `Endpoints.Push` | Projects/zstack/AT commands/project/Source/AT_App.c:298-299 | The match in front of the other list |
| `Endpoints.RemoveConserves` | Projects/zstack/AT commands/project/Source/AT_App.c:273-309 | One removal keeps the nodes of both lists together |
| `Endpoints.RegisterConserves` | Projects/zstack/AT commands/project/Source/AT_App.c:314-350 | So does one registration |
| `Experiment.Conservation` | Projects/zstack/AT commands/project/Source/AT_App.c:437-480 | Over every interleaving of start, stop, ticks and events: packets asked for by accepted starts are sent, still to be sent, or were dropped by a stop |
| `Experiment.AlwaysSane` | Projects/zstack/AT commands/project/Source/AT_App.c:437-480 | A running experiment has a positive interval and its timer armed or its event pending |
| `Experiment.EndsHaveStarts` | Projects/zstack/AT commands/project/Source/AT_App.c:437-467 | Ends reported, and timers and events that may still report one, never exceed accepted starts |
| `Experiment.AcceptedExperiment` | Projects/zstack/AT commands/project/Source/AT_App.c:437-473 | Whatever came before, an accepted start of n packets that nothing disturbs sends n packets and one end, all to its address, and falls silent after exactly n + 1 events |
| `Experiment.UndisturbedLength` | Projects/zstack/AT commands/project/Source/AT_App.c:453-473 | Events handled plus events still needed is constant in an undisturbed experiment |
| `Experiment.PacedExperiment` | Projects/zstack/AT commands/project/Source/AT_App.c:437-473 | In a run on time the first packet of an accepted start goes out 500 ms after it, or at once if an event was still pending, every further one and the end one interval after the last, with the message on the serial line |
| `Experiment.RefusedExactly` | Projects/zstack/AT commands/project/Source/AT_App.c:438-441 | A start is refused as active exactly when packets are left, as wrong exactly when none are and a parameter is 0, and then changes nothing |
| `Experiment.StopExactly` | Projects/zstack/AT commands/project/Source/AT_App.c:478-480 | A stop clears the count and leaves timer, interval and address, so that an event still to come reports an end |
| `Dispatcher.LoopHandles` | Projects/zstack/AT commands/project/Source/AT_App.c:79-174 | Feeding the dispatcher its own result ends, having handled every known event once in the order message, entry, experiment, report; a reset comes ahead of the report and drops it |
| `Dispatcher.CallClears` | Projects/zstack/AT commands/project/Source/AT_App.c:154-173 | Each call clears at least one event and adds none |
| `Dispatcher.ReleasedInOrder` | Projects/zstack/AT commands/project/Source/AT_App.c:86-151 | The message loop releases every queued message exactly once and in order |
| `Dispatcher.MessageActions` | Projects/zstack/AT commands/project/Source/AT_App.c:86-151 | What a call with one message does, by its kind and contents, before it releases it |
| `Dispatcher.QueueActions` | Projects/zstack/AT commands/project/Source/AT_App.c:86-151 | Several messages do what each of them does, one after another |
| `Dispatcher.App.ProcessEvent` | Projects/zstack/AT commands/project/Source/AT_App.c:79-174 | One call: what is done, what is left of the queue, and which events are returned |
| `Temperature.AlwaysConsistent` | Projects/zstack/AT commands/project/Source/AT_ZCL_temperature.c:104-293 | Over every interleaving of commands, resets, enables, ticks, deliveries and LED updates: with identify time 0, LED 3 does not blink and mode, cache and pin show the On/Off state; with identify time left, its timer is armed or its event pending; while on, so is the sampling timer |
| `Temperature.CountsDown` | Projects/zstack/AT commands/project/Source/AT_ZCL_temperature.c:127-213 | An identify time of t is down to 0 after exactly t handled identify events, whatever else happens meanwhile |
| `Temperature.SilentUntilOn` | Projects/zstack/AT commands/project/Source/AT_ZCL_temperature.c:136-271 | Off with no sampling timer or event: the reading stays invalid and nothing is sampled until something switches on |
| `Temperature.OffSilencesExactly` | Projects/zstack/AT commands/project/Source/AT_ZCL_temperature.c:266-269 | OFF reaches that state if and only if no measure event is pending at that moment |
| `Temperature.SamplingGoesOn` | Projects/zstack/AT commands/project/Source/AT_ZCL_temperature.c:136-141 | And with one pending or armed, sampling re-arms itself forever, on or off, until the next command |
| `Temperature.ReadingsAreValid` | Projects/zstack/AT commands/project/Source/AT_ZCL_temperature.c:226-230 | No reading of the sensor's range is mistaken for the invalid marker |
| `Temperature.CommandActs` | Projects/zstack/AT commands/project/Source/AT_ZCL_temperature.c:243-271 | ON, OFF and TOGGLE: the new state, LED 3 steady in it, the first sample due in 10 ms or none, the reading kept or marked invalid |
| `Temperature.ResetActs` | Projects/zstack/AT commands/project/Source/AT_ZCL_temperature.c:160-293 | Reset and disable leave the endpoint off, dark, without reading, identify time or timer; enable is ON |
| `Temperature.MeasureActs` | Projects/zstack/AT commands/project/Source/AT_ZCL_temperature.c:136-228 | A handled measure event stores 6.25 times the raw reading cut toward zero, and is due again a second later |
| `Temperature.IdentifyActs` | Projects/zstack/AT commands/project/Source/AT_ZCL_temperature.c:181-203 | Identify with time left starts a blink of 255 seconds, lit 5 percent of each, on LED 3, and the count of a second |
| `Temperature.IdentifyTickActs` | Projects/zstack/AT commands/project/Source/AT_ZCL_temperature.c:127-203 | So does each handled identify event that leaves time |
| `Temperature.BlinksExactly` | Projects/zstack/AT commands/project/Source/AT_ZCL_temperature.c:104-271 | Over all runs, with identify time left LED 3 blinks exactly unless an On/Off command or the end of its blink came since the last change of the identify time |
| `Temperature.IdentifyLasts` | Projects/zstack/AT commands/project/Source/AT_ZCL_temperature.c:127-213 | In a run on time, identifying for t seconds ends exactly t seconds after the command, or one second less if an identify event was still pending |
| `Temperature.BootLegal` | Projects/zstack/AT commands/project/Source/AT_ZCL_temperature.c:70-91 | The invariant holds at power-up, behind HalLedInit |
| `Temperature.StepKeeps` | Projects/zstack/AT commands/project/Source/AT_ZCL_temperature.c:104-293 | Each single event keeps it |
| `Temperature.TemperatureEndpoint.OnOffCommand` | Projects/zstack/AT commands/project/Source/AT_ZCL_temperature.c:243-271 | OnOffCB on the endpoint and the LED driver in place |
| `Temperature.TemperatureEndpoint.IdentifyCommand` | Projects/zstack/AT commands/project/Source/AT_ZCL_temperature.c:181-213 | IdentifyCB, with the blink or the switch of LED 3 |
| `Temperature.TemperatureEndpoint.BasicReset` | Projects/zstack/AT commands/project/Source/AT_ZCL_temperature.c:160-167 | BasicResetCB: off, then identify time 0 |
| `Temperature.TemperatureEndpoint.Enable` | Projects/zstack/AT commands/project/Source/AT_ZCL_temperature.c:288-293 | Enable is ON, disable is a reset |
| `Temperature.TemperatureEndpoint.EventLoop` | Projects/zstack/AT commands/project/Source/AT_ZCL_temperature.c:104-145 | One event per call, mail first, and the events returned |
| `ZclEndpoint.TakenExactly` | Projects/zstack/AT commands/project/Source/AT_ZCL_temperature.c:110-144 | Merged back by the scheduler, a call's result leaves pending exactly what was pending except the one event it handled |
| `ZclEndpoint.ShowIdentify` | Projects/zstack/AT commands/project/Source/AT_ZCL_temperature.c:198-213 | ProcessIdentifyTimeChange on the LED driver |
| `ZclEndpoint.ShowOnOff` | Projects/zstack/AT commands/project/Source/AT_ZCL_temperature.c:262-270 | LED and sampling timer follow the state |
| `ZclEndpoint.IdentifyChangeKeeps` | Projects/zstack/AT commands/project/Source/AT_ZCL_temperature.c:198-213 | A change of the identify time establishes the invariant, whatever the LED showed before |
| `ZclEndpoint.OnOffKeeps` | Projects/zstack/AT commands/project/Source/AT_ZCL_temperature.c:243-271 | A command keeps it |
| `ZclEndpoint.IdentifyBlinks` | Projects/zstack/AT commands/project/Source/AT_ZCL_temperature.c:198-213 | Identify time left: the LED, its timer and the identify timer, field by field |
| `ZclEndpoint.IdentifyEnds` | Projects/zstack/AT commands/project/Source/AT_ZCL_temperature.c:198-213 | None left: the LED steady in the On/Off state and the identify timer stopped |
| `ZclEndpoint.OnOffActs` | Projects/zstack/AT commands/project/Source/AT_ZCL_temperature.c:243-270 | An On/Off command, field by field |
| `ZclEndpoint.RestExactly` | Projects/zstack/AT commands/project/Source/AT_ZCL_temperature.c:110-144 | For every event mask: mail before identify before sample, one event handled and its bit alone cleared, unknown events discarded when there is nothing else |
| `ZclEndpoint.SparedBlink` | Projects/zstack/AT commands/project/Source/hal/hal_led.c:262-306 | Calls for other LEDs do not stop a blink; a blink event does so exactly when it is the last one |
| `ZclEndpoint.SparedStaysShown` | Projects/zstack/AT commands/project/Source/hal/hal_led.c:99-328 | An LED that shows a steady state keeps it through calls for other LEDs and through blink events |
| `ZclEndpoint.SetShows` | Projects/zstack/AT commands/project/Source/hal/hal_led.c:118-143 | ON or OFF makes mode, cache and pin of an LED agree, even out of a blink |
| `Switch.SendsChanges` | Projects/zstack/AT commands/project/Source/AT_ZCL_ONOFF_SWITCH.c:128-254 | The commands sent over any run, whatever else the LED engine does, are the samples with repeats left out, starting afresh after each switching off |
| `Switch.LastCommandAgrees` | Projects/zstack/AT commands/project/Source/AT_ZCL_ONOFF_SWITCH.c:152-165 | If a sample was taken since the last switching off, the last command sent agrees with the current action |
| `Switch.CommandsFollowSamples` | Projects/zstack/AT commands/project/Source/AT_ZCL_ONOFF_SWITCH.c:152-165 | The i-th command of a run is Off exactly when the i-th fresh sample is 0 and On exactly when it is 1 or 2 |
| `Switch.LastCommandIs` | Projects/zstack/AT commands/project/Source/AT_ZCL_ONOFF_SWITCH.c:152-254 | In every run with a sample since the last switching off, the last command is Off exactly when the action is 0 and On exactly when it is 1 or 2 |
| `Switch.SampleActs` | Projects/zstack/AT commands/project/Source/AT_ZCL_ONOFF_SWITCH.c:128-171 | A handled sample: the action, Off or On sent if it is new, LED 1, and the next sample due in 500 ms |
| `Switch.CommandActs` | Projects/zstack/AT commands/project/Source/AT_ZCL_ONOFF_SWITCH.c:225-254 | ON, OFF and TOGGLE: the new state, LED 2 steady in it, the first sample due in 10 ms or none, the action kept or forgotten, nothing sent |
| `Switch.ResetActs` | Projects/zstack/AT commands/project/Source/AT_ZCL_ONOFF_SWITCH.c:186-293 | Reset and disable leave the endpoint off, dark, without action, identify time or timer; enable is ON |
| `Switch.IdentifyActs` | Projects/zstack/AT commands/project/Source/AT_ZCL_ONOFF_SWITCH.c:207-271 | Identify with time left starts the blink of LED 2 and the count of a second |
| `Switch.IdentifyTickActs` | Projects/zstack/AT commands/project/Source/AT_ZCL_ONOFF_SWITCH.c:118-271 | So does each handled identify event that leaves time |
| `Switch.BlinksExactly` | Projects/zstack/AT commands/project/Source/AT_ZCL_ONOFF_SWITCH.c:95-281 | With identify time left LED 2 blinks exactly unless an On/Off command or the end of its blink came since the last change |
| `Switch.IdentifyLasts` | Projects/zstack/AT commands/project/Source/AT_ZCL_ONOFF_SWITCH.c:118-281 | In a run on time, identifying for t seconds ends exactly t seconds after the command, or one second less if an identify event was still pending |
| `Switch.OnMeansSampling` | Projects/zstack/AT commands/project/Source/AT_ZCL_ONOFF_SWITCH.c:128-254 | While the endpoint is on, its sampling timer is armed or its event pending |
| `Switch.AlwaysConsistent` | Projects/zstack/AT commands/project/Source/AT_ZCL_ONOFF_SWITCH.c:95-293 | Over every interleaving of commands, resets, enables, ticks, samples and LED updates, LED 2 used by nothing else: with identify time 0 it does not blink and shows the On/Off state, with identify time left its timer is armed or its event pending, and while on so is the sampling timer |
| `Switch.StepConsistent` | Projects/zstack/AT commands/project/Source/AT_ZCL_ONOFF_SWITCH.c:95-293 | Each single event keeps that |
| `Switch.UpdateShows` | Projects/zstack/AT commands/project/Source/AT_ZCL_ONOFF_SWITCH.c:167-169 | LED 1 is lit exactly for an action other than 0 |
| `Switch.SwitchEndpoint.UpdateSwitch` | Projects/zstack/AT commands/project/Source/AT_ZCL_ONOFF_SWITCH.c:152-171 | The update in place: action, command sent on a change, LED 1 |
| `Switch.SwitchEndpoint.OnOffCommand` | Projects/zstack/AT commands/project/Source/AT_ZCL_ONOFF_SWITCH.c:225-254 | OnOffCB, with the action forgotten on OFF |
| `Switch.SwitchEndpoint.IdentifyCommand` | Projects/zstack/AT commands/project/Source/AT_ZCL_ONOFF_SWITCH.c:207-211 | IdentifyCB |
| `Switch.SwitchEndpoint.BasicReset` | Projects/zstack/AT commands/project/Source/AT_ZCL_ONOFF_SWITCH.c:186-193 | BasicResetCB |
| `Switch.SwitchEndpoint.Enable` | Projects/zstack/AT commands/project/Source/AT_ZCL_ONOFF_SWITCH.c:288-293 | Enable is ON, disable is a reset |
| `Switch.SwitchEndpoint.EventLoop` | Projects/zstack/AT commands/project/Source/AT_ZCL_ONOFF_SWITCH.c:95-137 | One event per call, and the events returned |
| `Dht11.WaitTimesOut` | Projects/zstack/AT commands/project/Source/AT_DHT11.c:49-57 | For every behaviour of the line, a wait loop ends within 255 reads and leaves the flag at 1 exactly when all of them found the awaited level |
| `Dht11.ByteDecodes` | Projects/zstack/AT commands/project/Source/AT_DHT11.c:46-61 | A byte times out exactly when fewer than eight bits came; otherwise it is the eight sampled bits, most significant first, whatever it held before |
| `Dht11.BitsShiftIn` | Projects/zstack/AT commands/project/Source/AT_DHT11.c:56-60 | After a timeout the bits so far are shifted in behind the old contents, modulo 256 |
| `Dht11.AlwaysAgrees` | Projects/zstack/AT commands/project/Source/AT_DHT11.c:64-100 | Over all runs, the published frame satisfies the modulo-256 checksum and is as a whole what some one reading gathered, or what was there before |
| `Dht11.CleanBytes` | Projects/zstack/AT commands/project/Source/AT_DHT11.c:80-89 | Without timeouts each of the five bytes is its own eight sampled bits |
| `Dht11Line.ReadingDecodes` | Projects/zstack/AT commands/project/Source/AT_DHT11.c:44-107 | Round trip over pin levels: for every line that answers and sends five bytes as pulses, most significant bit first, with phases of any length short of the timeout, and for every earlier state, a reading gathers exactly these bytes and publishes them exactly when the fifth is the sum of the others modulo 256 |
| `Dht11Line.PulseReads` | Projects/zstack/AT commands/project/Source/AT_DHT11.c:49-60 | One pulse is one bit: high in the read after its low phase or not |
| `Dht11Line.BytesRead` | Projects/zstack/AT commands/project/Source/AT_DHT11.c:46-89 | Pulses that spell bytes are read as these bytes, one after another |
| `Dht11Line.BitAt` | Projects/zstack/AT commands/project/Source/AT_DHT11.c:59-60 | The first bit of a byte is worth most |
| `Dht11Line.NoAnswer` | Projects/zstack/AT commands/project/Source/AT_DHT11.c:74-104 | A line that is high at the first read changes nothing |
| `Dht11Lost.LostHighExactly` | Projects/zstack/AT commands/project/Source/AT_DHT11.c:46-99 | A line that goes high for good at any read before the frame is over: the byte in progress is what it held with the bits so far shifted in behind, every later byte is the same, and the frame is published if and only if a sum over the bytes so far, which depends on the number of whole ones, is 0 modulo 256 |
| `Dht11Lost.LostHighBetween` | Projects/zstack/AT commands/project/Source/AT_DHT11.c:46-99 | The same between two bytes: published if and only if the shift variable, the first byte, the first plus twice the second, or the sum of the first three is 0 modulo 256, after 0, 1, 2 and more whole bytes |
| `Dht11Lost.LostLowExactly` | Projects/zstack/AT commands/project/Source/AT_DHT11.c:46-99 | A line that goes low for good at any read before the frame is over: the byte in progress is filled up with zeros, every later byte is zero, and the frame is published if and only if the bytes so far sum to 0 modulo 256 (or, in the checksum byte, agree with it) |
| `Dht11Lost.LostLowBetween` | Projects/zstack/AT commands/project/Source/AT_DHT11.c:46-99 | The same when no bit of the next byte was sampled: published if and only if the whole bytes sum to 0 modulo 256 |
| `Dht11Lost.HighTimesOut` | Projects/zstack/AT commands/project/Source/AT_DHT11.c:49-58 | Bits being read when the line goes high end in a timeout |
| `Dht11Lost.LowCompletes` | Projects/zstack/AT commands/project/Source/AT_DHT11.c:49-60 | Bits being read when the line goes low are all gathered, those sampled from then on as zeros |
| `Dht11Lost.StuckLow` | Projects/zstack/AT commands/project/Source/AT_DHT11.c:46-99 | An instance: a line that is always low passes for a sensor and publishes five zero bytes |
| `Dht11Lost.StuckHigh` | Projects/zstack/AT commands/project/Source/AT_DHT11.c:58-99 | An instance: a line that goes high right after the answer repeats the old byte five times, published exactly when it is zero |
| `Dht11.Sensor.WaitWhile` | Projects/zstack/AT commands/project/Source/AT_DHT11.c:49-50 | The busy-wait loop with its wrapping counter |
| `Dht11.Sensor.SampleBit` | Projects/zstack/AT commands/project/Source/AT_DHT11.c:49-57 | One bit: low phase, sample, high phase |
| `Dht11.Sensor.ReadOne` | Projects/zstack/AT commands/project/Source/AT_DHT11.c:44-62 | COM: eight bits shifted into the global byte, or a break on a timeout |
| `Dht11.Sensor.ReadFrame` | Projects/zstack/AT commands/project/Source/AT_DHT11.c:80-89 | The five calls, each starting from the byte the last one left |
| `Dht11.Sensor.Read` | Projects/zstack/AT commands/project/Source/AT_DHT11.c:64-107 | DHT11: nothing happens without an answer |

## Left out

- The default board drives LED 4 through the pin of LED 1 (`hal/hal_board_cfg.h`); the model has one pin for each of the four pairs of macros, so what it says about the pins of LED 1 and LED 4 holds for boards where they are apart.
- The system clock does not advance within a call and never overflows; its 32-bit wrap-around after 49 days is not modelled.
- What happens after `print` has stepped past a terminator, and after `printi` has written in front of its buffer, is undefined in C; the model reports that either happens and goes on as if the memory there were its own.
- The width in a format and the result of `print` are unbounded; a width above 32767 would overflow the 16-bit int of the source.
- `va_arg` on missing or mismatched arguments is undefined in C: `print` is modelled for arguments that match the format.
- The macros that turn LEDs on and off assign to an array of pins; the polarity of the pins on a board is not modelled.
- The array that stands for the six-byte buffer of `printi` has one cell in front of it, so that a write there can be stated.
- `AT_af_ep_list` reads the successor of each node and so follows a null pointer at the end of a list; no behaviour can be stated for it.
- `AT_handleEntryEvt` and `AT_App_HandleKeys` are single entries of the dispatcher's trace; `SystemReset` is one too and, as in the code, a zero is returned behind it.
- LoopHandles: messages and events that arrive while the dispatcher is being fed its own result are not modelled.
- AlwaysConsistent: sleep, calls for the endpoint's own LED by others and writes to the identify time attribute that bypass the command are not among its events.
- Centi: the floating point product is taken exactly and cut to 16 bits; the one-wire protocol of the DS18B20 is not modelled.
- Delays in the sensor readers: the reads of the pin are numbered and any of them may find any level.
- Ownership of other LEDs: LED 1 is shared by the switch endpoint and the experiment, LED 2 by the switch endpoint and the network state, and no claim is made about their interplay.
- `hal_key.c`, `AT_ZCL_ONOFF_SWITCH2.c`, `AT_ZCL_ONOFF.c` and `AT_ZCL_DHT.c`: little state, or near copies of what is modelled.
- Radio, serial port, stack and cluster library internals, non-volatile storage, attribute tables and descriptors are not part of this model.
