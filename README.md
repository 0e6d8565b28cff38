# Blaster LED patterns, modelled and verified in Dafny

This project models the LED animation engine of a prop blaster and proves
properties of the model. The engine works on an addressable RGB strip. The
model covers:

- **The colour-approach primitive** (`Blend`). `nblendU8TowardU8` moves one
  8-bit channel toward a target by `scale8_video(distance, amount)`, and
  `fadeTowardColor` does this for all three channels.
- **The pattern base class** (`PatternBase`). `clear` and `fadeToBlack` act
  on the shared pixel buffer.
- **`ezBlasterShot`** (`BlasterShot`). A white flash, then a blend from the
  start colour to the target colour, a blend to black ("cooling"), and
  idle. The completion callback runs once.
- **`ezBlasterPulse`** (`BlasterPulse`). A segment of `width` pixels travels
  up the strip one pixel per frame and leaves a fading trail. On a
  mirrored strip a second segment travels down the upper half.
- **`ezBlasterRepeatingPulse`** (`RepeatingPulse`). A rigid train of
  `repeats` segments separated by `space` black pixels. Behind it the
  strip is either faded or cleared.
- **`EasyLedv2`** (`EasyLedV2`). The earlier single-shot driver, which has
  its own buffer and a `setPixel` whose guard checks only the upper bound
  of the index (see "## Findings").
- **`EasyCounter`** (`EasyCounter`). The 8-bit up/down ammo counter with
  empty, full and reset queries and audio-track selection.

`FastLed` holds the small part of the FastLED library the patterns use:

- the pixel type and `fill_solid`;
- `fadeToBlackBy` and `scale8_video`;
- the `EVERY_N_MILLISECONDS` gate.

Each pattern has two layers:

- **Pure functions** over a state datatype and the buffer as a
  `seq<Pixel>`. They form the specification, and the lemmas are stated
  about them.
- **A class** with the source's fields. Its methods update the fields and
  an `array<Pixel>` in place, with the source's loops. Each method is
  proved to produce exactly the state and buffer that its function
  specifies.

The main results:

- **Blending.** The blend never overshoots, and with a nonzero amount it
  reaches its target within the summed channel distance.
- **Shot.**
  - Each frame of the shot is described phase by phase.
  - The callback fires at most once.
  - Driven by calls at least one frame apart, the first no earlier than
    `activate`, the shot is idle within 3071 calls (at most 6 flash frames
    and 3065 blending and cooling frames), with the buffer black and the
    callback fired exactly once.
- **Pulses.**
  - Without wrap-around of the `int8_t` head, an active frame moves the
    head up by exactly one pixel.
  - It writes exactly the segment, or for the train exactly the pattern
    of lit segments and black gaps, inside `[0, endIdx)`.
  - The mirrored downward pass writes only inside `[middle, count)`.
  - The callback fires at most once.
  - Without wrap-around, the pulse finishes after
    `endIdx + patternWidth + 2 - advanceUp` frames.
- **`EasyLedv2`.** The stop, retarget and active frames are described
  case by case. `blendRate` changes only while active. Every shot stops
  with a black colour. The strip is then black too, unless the shot
  started from a black colour, which leaves it white.
- **Counter.**
  - Over a counter's life the selected track is the reset track, then an
    active track while ammo remains, then the empty track.
  - A counter started with `low <= high` and an increment of ±1 stays in
    `[low, high]`.
  - It is empty after exactly `high - low` ticks and never before.
  - Ticks on an empty counter change nothing.

C integer widths are written out:

- `U8` is a store into a `uint8_t` and `I8` a store into an `int8_t`.
- Wrapping appears wherever the source wraps: `blendRate + 1`,
  `blendRate * 2`, `advanceUp`, `startIdx`, `patternWidth` and the
  counter.

Time is an explicit `now` in milliseconds. Each `EVERY_N_MILLISECONDS`
call site is a field that holds its last firing time. The gate fires when
`now - last >= period` and sets the field to `now` before its block runs.
The completion callback is a ghost counter of invocations.

Three behaviours of the code that are easy to misread:

- **`blendRate` wraps.** `blendRate` is a `uint8_t`, so
  `blendRate + 1` and `blendRate * 2` (`ezPattern.h` lines 102, 108, 118
  and 124) wrap modulo 256 and can reach 0. The model wraps it, and the
  completion bound allows for one stalled frame at rate 0.
- **The shot's target stays.** The comment in `checkShotBlended`
  (`ezPattern.h` line 91) says the target is set to black to fade out, but
  the code does not touch `targetColor`. `coolingShot` blends toward a
  separate black `coolOffColor` instead, so a second `activate` blends to
  the original target again. `EasyLedv2` does overwrite its target with
  black.
- **Cooling starts at once.** The checks run in the order cooled, blended,
  cooling, blending, flash. So the frame that finds the target reached
  already takes the first cooling step, and `blendRate` ends at 33, or 66
  when doubled.

Two behaviours of the code that the model reproduces:

- **A black start stays white.** `EasyLedv2::blasterShot` with a black
  start colour leaves the strip white. The next frame stops the shot
  before anything is drawn.
- **Long pulses never finish.** An `ezBlasterPulse` whose `endIdx` is 127
  or more has an `int8_t` head that wraps before the finishing condition
  can hold.

## Model

| member | source | states |
|---|---|---|
| FastLed.Filled | mando-blaster/ezPattern.h:101 | `fill_solid(leds, count, c)`: the first `count` pixels are `c`, the rest are unchanged |
| FastLed.FillSolid | mando-blaster/ezPattern.h:101 | the in-place loop leaves exactly the buffer `Filled` describes |
| FastLed.Faded | mando-blaster/ezPattern.h:53-55 | `fadeToBlackBy`: the first `count` pixels are dimmed (never brighter, black stays black), the rest are unchanged |
| FastLed.FadeToBlackBy | mando-blaster/ezPattern.h:53-55 | the in-place loop leaves exactly the buffer `Faded` describes |
| Blend.BlendU8Toward | mando-blaster/ezPattern.h:154-166 | a channel at its target stays; otherwise the result lies between the channel and its target, is unchanged for amount 0, and is strictly closer to the target for any nonzero amount (the identical copy in `easyledv2.h:127-139` is the same function) |
| Blend.FadeTowardColor | mando-blaster/ezPattern.h:145-150 | each channel is blended independently by `nblendU8TowardU8`; a colour at its target stays; a nonzero amount strictly reduces the summed channel distance (the identical copy in `easyledv2.h:144-149` is the same function) |
| Blend.FadeConverges | mando-blaster/ezPattern.h:145-166 | with a nonzero amount, repeated blending reaches the target exactly within the summed channel distance |
| Blend.FadeStaysAtTarget | mando-blaster/ezPattern.h:145-166 | once at the target, repeated blending stays there |
| Blend.FadeRepeatNeverOvershoots | mando-blaster/ezPattern.h:145-166 | after any number of blends every channel lies between its start and its target |
| PatternBase.Cleared | mando-blaster/ezPattern.h:41-43 | `clear`: the first `count` pixels are black, the rest are unchanged |
| PatternBase.Trailed | mando-blaster/ezPattern.h:53-55 | `fadeToBlack`: a black prefix stays black, the rest is unchanged |
| PatternBase.Clear | mando-blaster/ezPattern.h:41-43 | the buffer after `clear` is `Cleared` |
| PatternBase.FadeToBlack | mando-blaster/ezPattern.h:53-55 | the buffer after `fadeToBlack` is `Trailed`, with fade rate 220 |
| BlasterShot.Activated | mando-blaster/ezPattern.h:182-188 | `activate`: the colour is the start colour, the phase is flashing (3), `blendRate` is 2, the flash timer is `now` and every pixel is white |
| BlasterShot.FlashFrame | mando-blaster/ezPattern.h:130-138 | in the flash phase a frame only switches to blending, exactly when more than 75 ms have passed; the buffer is untouched |
| BlasterShot.BlendingFrame | mando-blaster/ezPattern.h:114-129 | while blending toward an unreached target: one blend step, every pixel shows the new colour, `blendRate` is incremented and possibly doubled modulo 256, no callback |
| BlasterShot.BlendedFrame | mando-blaster/ezPattern.h:89-97 | on reaching the target the phase becomes cooling with rate 32, and in the same frame the first step toward black runs (rate 33 or 66) |
| BlasterShot.CoolingFrame | mando-blaster/ezPattern.h:98-113 | while cooling and not black: one step toward black, every pixel shows it, the rate moves on |
| BlasterShot.CooledFrame | mando-blaster/ezPattern.h:80-88 | cooling and black: idle, buffer cleared, callback invoked once |
| BlasterShot.IdleUpdate | mando-blaster/ezPattern.h:190-212 | an idle shot changes nothing but the frame gate |
| BlasterShot.GatedUpdate | mando-blaster/ezPattern.h:190-191 | a call before the frame period has elapsed changes nothing |
| BlasterShot.IdleRun | mando-blaster/ezPattern.h:190-212 | any run of calls on an idle shot leaves buffer, phase and callbacks unchanged |
| BlasterShot.CallbackAtMostOnce | mando-blaster/ezPattern.h:44-47 | a run of calls invokes the callback at most once, and never from an idle shot |
| BlasterShot.PotentialBound | mando-blaster/ezPattern.h:98-129 | the frames still needed from blending or cooling are at most 3065 |
| BlasterShot.FrameProgress | mando-blaster/ezPattern.h:193-208 | every blending or cooling frame lowers the potential; it either stays in those phases without callback or ends idle with the buffer cleared and the callback counted |
| BlasterShot.ShotCompletes | mando-blaster/ezPattern.h:190-212 | with calls one frame apart, a blending or cooling shot is idle after `Potential` calls, with the callback invoked exactly once and the buffer black |
| BlasterShot.FlashThenCompletes | mando-blaster/ezPattern.h:130-138 | from the flash phase, with calls one frame apart and the first `m` frames short of the flash's end, the shot is idle, black and notified exactly once after `m + 3066` calls |
| BlasterShot.ActivatedShotCompletes | mando-blaster/ezPattern.h:182-212 | after `activate` at time `t`, calls one frame apart starting no earlier than `t` leave the shot idle, the buffer black and the callback invoked exactly once within 3071 calls |
| BlasterShot.ShotPattern.constructor | mando-blaster/ezPattern.h:168-172 | idle, start and target colours stored, frame rate 16, callback stored |
| BlasterShot.ShotPattern.Initialize | mando-blaster/ezPattern.h:177-180 | only the start and target colours change |
| BlasterShot.ShotPattern.Activate | mando-blaster/ezPattern.h:182-188 | fields and buffer become `Activated` (with `whiteflash`, lines 48-52) |
| BlasterShot.ShotPattern.UpdateDisplay | mando-blaster/ezPattern.h:190-212 | fields and buffer become `Update`: the five helpers in source order when the frame gate is due |
| BlasterShot.ShotPattern.CheckShotCooled | mando-blaster/ezPattern.h:80-88 | cooling and black: idle, cleared, callback counted; else nothing changes |
| BlasterShot.ShotPattern.CheckShotBlended | mando-blaster/ezPattern.h:89-97 | blending and at target: cooling with rate 32; the target is kept |
| BlasterShot.ShotPattern.CoolingShot | mando-blaster/ezPattern.h:98-113 | cooling: blend toward black, fill, rate + 1, doubled when its own gate is due |
| BlasterShot.ShotPattern.BlendingShot | mando-blaster/ezPattern.h:114-129 | blending: blend toward the target, fill, rate + 1, doubled when its own gate is due |
| BlasterShot.ShotPattern.CheckWhiteFlash | mando-blaster/ezPattern.h:130-138 | flashing: switch to blending once more than 75 ms have passed |
| BlasterPulse.PaintUpAt | mando-blaster/ezPattern.h:271-282 | the upward loop lights exactly the indices of `(up - width, up]` inside `[0, endIdx)`; all others are unchanged |
| BlasterPulse.PaintDownAt | mando-blaster/ezPattern.h:283-294 | the downward loop lights exactly the indices of `[down, down + width)` inside `[lo, count)`; all others are unchanged |
| BlasterPulse.Activated | mando-blaster/ezPattern.h:311-317 | `advanceUp` 0, `advanceDown` `count - 1` (as `int8_t`), `middle` `count / 2`, active |
| BlasterPulse.IdleFrame | mando-blaster/ezPattern.h:259-270 | an inactive pulse's frame changes nothing |
| BlasterPulse.FinishingFrame | mando-blaster/ezPattern.h:243-250 | once `advanceUp - patternWidth > endIdx` the pulse deactivates and the buffer is only faded |
| BlasterPulse.ActiveFrame | mando-blaster/ezPattern.h:259-294 | while neither `int8_t` head wraps, an active frame: head up by one, callback exactly on the reached-top frame (with the clear), segment lit inside `[0, endIdx)`, mirrored segment only inside `[middle, count)`, every other pixel the faded buffer |
| BlasterPulse.FirstFrameExample | mando-blaster/ezPattern.h:311-332 | the first frame after `activate` on 8 pixels with width 2 lights indices 0 and 1 |
| BlasterPulse.UpdateKeepsCount | mando-blaster/ezPattern.h:319-332 | without wrap-around, a call never moves the head back, and callbacks fired plus callbacks due stay constant |
| BlasterPulse.CallbackAtMostOnce | mando-blaster/ezPattern.h:251-258 | without wrap-around, a run invokes the callback at most once per activation |
| BlasterPulse.PulseCompletes | mando-blaster/ezPattern.h:243-258 | without wrap-around and with calls one frame apart, the pulse is inactive after `endIdx + patternWidth + 2 - advanceUp` calls, the due callback fired exactly once |
| BlasterPulse.IdleRun | mando-blaster/ezPattern.h:319-332 | an inactive pulse ignores any run of calls |
| BlasterPulse.PulsePattern.constructor | mando-blaster/ezPattern.h:296-301 | idle, colour and width stored, `patternWidth = width`, mirroring, frame rate and callback stored |
| BlasterPulse.PulsePattern.Initialize | mando-blaster/ezPattern.h:306-310 | colour, width and `patternWidth = width` change, nothing else |
| BlasterPulse.PulsePattern.Activate | mando-blaster/ezPattern.h:311-317 | fields become `Activated` |
| BlasterPulse.PulsePattern.UpdateDisplay | mando-blaster/ezPattern.h:319-332 | fields and buffer become `Update`: finished check (with fade), reached-top check, advance |
| BlasterPulse.PulsePattern.CheckPulseFinished | mando-blaster/ezPattern.h:243-250 | returns whether the pulse finished, and then only deactivates it |
| BlasterPulse.PulsePattern.CheckPulseReachedTop | mando-blaster/ezPattern.h:251-258 | on the last index: buffer cleared, callback counted; else nothing |
| BlasterPulse.PulsePattern.AdvancePulse | mando-blaster/ezPattern.h:259-270 | while active: fade, upward pass, mirrored downward pass |
| BlasterPulse.PulsePattern.AdvancePulseUp | mando-blaster/ezPattern.h:271-282 | `advanceUp + 1` (as `int8_t`), then the loop writes exactly `PaintUp` |
| BlasterPulse.PulsePattern.AdvancePulseDown | mando-blaster/ezPattern.h:283-294 | `advanceDown - 1` (as `int8_t`), then the loop writes exactly `PaintDown` |
| RepeatingPulse.PatternWidth | mando-blaster/ezPattern.h:472-479 | `(width + space) * repeats - space` stored in a `uint8_t`; it is the exact train length when that fits |
| RepeatingPulse.RunUp | mando-blaster/ezPattern.h:415-420 | an upward inner loop never writes at or beyond `endIdx` |
| RepeatingPulse.RunDown | mando-blaster/ezPattern.h:444-449 | a downward inner loop writes only inside `[lo, count)`, whatever the `int8_t` wrap-around |
| RepeatingPulse.RoundUp | mando-blaster/ezPattern.h:411-430 | one outer round never writes at or beyond `endIdx` |
| RepeatingPulse.TrainUp | mando-blaster/ezPattern.h:404-431 | the upward pass never writes at or beyond `endIdx` |
| RepeatingPulse.RoundDown | mando-blaster/ezPattern.h:440-458 | one downward round writes only inside `[lo, count)` |
| RepeatingPulse.TrainDown | mando-blaster/ezPattern.h:432-460 | the mirrored downward pass writes only inside `[middle, count)` |
| RepeatingPulse.RunUpAt | mando-blaster/ezPattern.h:415-420 | without wrap-around, an upward inner loop writes its colour exactly at offsets `[off, off + k)` behind the head inside `[0, endIdx)` |
| RepeatingPulse.BlockBounds | mando-blaster/ezPattern.h:413 | for a fitting train, `startIdx = r * (width + space)` does not wrap and every block ends inside the train |
| RepeatingPulse.RoundUpAt | mando-blaster/ezPattern.h:411-430 | round `r` draws block `r`: its segment lit, its gap black unless it is the last block |
| RepeatingPulse.TrainUpAt | mando-blaster/ezPattern.h:404-431 | after the rounds, every index in `[0, endIdx)` within the train shows the colour where the offset modulo `width + space` is below `width` and black elsewhere; all other indices are unchanged |
| RepeatingPulse.Initialized | mando-blaster/ezPattern.h:472-479 | `initialize` stores the shape and recomputes `patternWidth`; phase, head and callbacks are unchanged |
| RepeatingPulse.Activated | mando-blaster/ezPattern.h:481-487 | `advanceUp` 0, `advanceDown` `count - 1` (as `int8_t`), `middle` `count / 2`, active |
| RepeatingPulse.Behind | mando-blaster/ezPattern.h:386-395 | the buffer is faded when `fadePulse`, else cleared, so that it is then black |
| RepeatingPulse.IdleFrame | mando-blaster/ezPattern.h:386-403 | an inactive train's frame changes nothing |
| RepeatingPulse.FinishingFrame | mando-blaster/ezPattern.h:370-377 | once `advanceUp - patternWidth > endIdx` the train deactivates and the buffer is only faded |
| RepeatingPulse.ActiveFrame | mando-blaster/ezPattern.h:386-431 | a fitting train's active frame, head in `[-1, 127)`: head up by one, callback exactly on the reached-top frame, the train pattern inside `[0, endIdx)`, beyond it only `[middle, count)` written when mirrored |
| RepeatingPulse.TwoPulseExample | mando-blaster/ezPattern.h:404-431 | width 1, space 1, 2 repeats on 10 pixels without fade: on the frame that moves the head to 4, indices 4 and 2 are lit, 3 is black between them, all else black |
| RepeatingPulse.UpdateKeepsCount | mando-blaster/ezPattern.h:489-500 | without wrap-around, a call never moves the head back, and callbacks fired plus due stay constant |
| RepeatingPulse.CallbackAtMostOnce | mando-blaster/ezPattern.h:378-385 | without wrap-around, at most one callback per activation |
| RepeatingPulse.IdleRun | mando-blaster/ezPattern.h:489-500 | an inactive train ignores any run of calls |
| RepeatingPulse.TrainCompletes | mando-blaster/ezPattern.h:370-385 | without wrap-around and with calls one frame apart, the train is inactive after `endIdx + patternWidth + 2 - advanceUp` calls, the due callback fired exactly once |
| RepeatingPulse.LightRunUp | mando-blaster/ezPattern.h:415-420 | the in-place inner loop writes exactly `RunUp` |
| RepeatingPulse.LightRunDown | mando-blaster/ezPattern.h:444-449 | the in-place inner loop writes exactly `RunDown` |
| RepeatingPulse.DrawRoundUp | mando-blaster/ezPattern.h:411-430 | one in-place outer round writes exactly `RoundUp` |
| RepeatingPulse.DrawRoundDown | mando-blaster/ezPattern.h:440-458 | one in-place outer round writes exactly `RoundDown` |
| RepeatingPulse.DrawTrainUp | mando-blaster/ezPattern.h:411-430 | the in-place outer loop of `repeats` rounds writes exactly `TrainUp` |
| RepeatingPulse.DrawTrainDown | mando-blaster/ezPattern.h:440-459 | the in-place outer loop of `repeats` rounds writes exactly `TrainDown` |
| RepeatingPulse.TrainPattern.constructor | mando-blaster/ezPattern.h:462-467 | idle; shape, `patternWidth`, fade flag, mirroring, frame rate and callback stored |
| RepeatingPulse.TrainPattern.Initialize | mando-blaster/ezPattern.h:472-479 | fields become `Initialized` |
| RepeatingPulse.TrainPattern.Activate | mando-blaster/ezPattern.h:481-487 | fields become `Activated` |
| RepeatingPulse.TrainPattern.UpdateDisplay | mando-blaster/ezPattern.h:489-500 | fields and buffer become `Update` |
| RepeatingPulse.TrainPattern.CheckPulseFinished | mando-blaster/ezPattern.h:370-377 | returns whether the train finished, and then only deactivates it |
| RepeatingPulse.TrainPattern.CheckPulseReachedTop | mando-blaster/ezPattern.h:378-385 | on the last index: cleared, callback counted; else nothing |
| RepeatingPulse.TrainPattern.AdvancePulse | mando-blaster/ezPattern.h:386-403 | while active: fade or clear, upward pass, mirrored downward pass |
| RepeatingPulse.TrainPattern.AdvancePulseUp | mando-blaster/ezPattern.h:404-431 | `advanceUp + 1` (as `int8_t`), then the nested loops write exactly `TrainUp` |
| RepeatingPulse.TrainPattern.AdvancePulseDown | mando-blaster/ezPattern.h:432-460 | `advanceDown - 1` (as `int8_t`), then the nested loops write exactly `TrainDown` |
| EasyLedV2.GuardAdmitsOutOfRange | mando-blaster/easyledv2.h:50-51 | the written guard `Pixel < LED_COUNT` lets through an index outside the buffer, for every buffer size |
| EasyLedV2.PixelSet | mando-blaster/easyledv2.h:50-56 | with the intended guard `0 <= i < LED_COUNT`: pixel `i` takes the three channels when inside the buffer; every other pixel, and the whole buffer for any index outside it, is unchanged |
| EasyLedV2.PixelSetAgreesWithGuard | mando-blaster/easyledv2.h:50-56 | for every non-negative index the intended `setPixel` does exactly what the written guard does |
| EasyLedV2.Started | mando-blaster/easyledv2.h:79-90 | when enabled: colour, target, active, rate 2, every pixel white; when disabled nothing changes |
| EasyLedV2.StopFrame | mando-blaster/easyledv2.h:96-99 | an active shot at black stops, and nothing is drawn |
| EasyLedV2.RetargetFrame | mando-blaster/easyledv2.h:101-107 | at a non-black target: target black, rate 32, and the first step toward black runs in the same frame |
| EasyLedV2.ActiveFrame | mando-blaster/easyledv2.h:109-114 | otherwise, while active: one blend step, every pixel shows it, rate + 1 modulo 256 |
| EasyLedV2.InactiveUpdate | mando-blaster/easyledv2.h:92-124 | an inactive driver changes only its gate times |
| EasyLedV2.RateOnlyChangesWhileActive | mando-blaster/easyledv2.h:117-122 | in a call whose frame is due, a shot that is inactive or already black keeps its `blendRate`, doubling gate included |
| EasyLedV2.DisabledRun | mando-blaster/easyledv2.h:92-93 | without LEDs or pin, `updateDisplay` does nothing |
| EasyLedV2.InactiveRun | mando-blaster/easyledv2.h:92-124 | a stopped shot stays stopped and the buffer unchanged |
| EasyLedV2.UpdateProgress | mando-blaster/easyledv2.h:94-116 | each due frame lowers the potential of an active shot; a stopped shot is black; "buffer black whenever the colour is black" is preserved |
| EasyLedV2.ShotStops | mando-blaster/easyledv2.h:92-124 | with calls one frame apart, every active shot stops within `Potential` calls with a black colour; every pixel is black too unless it began black over a non-black buffer |
| EasyLedV2.PotentialBound | mando-blaster/easyledv2.h:92-124 | the potential is at most 3065 |
| EasyLedV2.Driver.constructor | mando-blaster/easyledv2.h:68 | colours black, not fading, rate 2 (the field initialisers of lines 36-41), buffer of `LED_COUNT` black pixels |
| EasyLedV2.Driver.SetPixel | mando-blaster/easyledv2.h:50-56 | for any `int` index the buffer becomes `PixelSet`: written only inside the buffer |
| EasyLedV2.Driver.BlasterShot | mando-blaster/easyledv2.h:79-90 | fields and buffer become `Started` |
| EasyLedV2.Driver.UpdateDisplay | mando-blaster/easyledv2.h:92-124 | fields and buffer become `Update`: frame gate then doubling gate |
| EasyCounter.Ticked | mando-blaster/easycounter.h:59-66 | nothing when empty; otherwise +1 in UP mode and -1 otherwise, modulo 256; a counter in range stays in range and comes one tick closer to empty |
| EasyCounter.Reset | mando-blaster/easycounter.h:84-91 | in either mode the counter is full (`low` up, `high` down) and in range; with any other increment nothing changes |
| EasyCounter.Begun | mando-blaster/easycounter.h:51-57 | bounds and mode stored, then reset: full, in range, `high - low` ticks from empty |
| EasyCounter.TrackNumber | mando-blaster/easycounter.h:97-101 | the empty track when empty, else the reset track when full, else the first active track |
| EasyCounter.TrackLifecycle | mando-blaster/easycounter.h:51-109 | after `begin(low, high, ±1)` with `low < high` and `k` ticks: the reset track at `k = 0`, the active track (the second for index 1) for `0 < k < high - low`, the empty track from `k = high - low` on |
| EasyCounter.TrackNumberAt | mando-blaster/easycounter.h:103-109 | as `TrackNumber`, except that index 1 selects the second active track when neither empty nor full |
| EasyCounter.TicksStayInRange | mando-blaster/easycounter.h:59-66 | any number of ticks keeps a counter in range, bounds and mode unchanged |
| EasyCounter.TicksCount | mando-blaster/easycounter.h:59-74 | `k` ticks move the count by exactly `k` toward the empty end; empty exactly when `k` reaches the remaining distance |
| EasyCounter.EmptyStaysEmpty | mando-blaster/easycounter.h:59-60 | ticks on an empty counter change nothing |
| EasyCounter.EmptyAfterBegin | mando-blaster/easycounter.h:51-74 | after `begin(low, high, ±1)` with `low <= high`: full, not empty before `high - low` ticks, empty from then on, always in range |
| EasyCounter.Counter.constructor | mando-blaster/easycounter.h:43 | label stored; count, bounds and track indexes zero, increment down |
| EasyCounter.Counter.WithTracks | mando-blaster/easycounter.h:44-49 | the first two active tracks, the empty and the reset track stored |
| EasyCounter.Counter.Begin | mando-blaster/easycounter.h:51-57 | fields become `Begun` |
| EasyCounter.Counter.Tick | mando-blaster/easycounter.h:59-66 | fields become `Ticked` |
| EasyCounter.Counter.IsEmpty | mando-blaster/easycounter.h:68-74 | count at `high` going up, at `low` going down, false otherwise |
| EasyCounter.Counter.IsFull | mando-blaster/easycounter.h:76-82 | count at `low` going up, at `high` going down, false otherwise |
| EasyCounter.Counter.ResetCount | mando-blaster/easycounter.h:84-91 | fields become `Reset`, and the new count is returned |
| EasyCounter.Counter.GetCount | mando-blaster/easycounter.h:93-95 | returns the count |
| EasyCounter.Counter.GetTrackNumber | mando-blaster/easycounter.h:97-101 | returns `TrackNumber` |
| EasyCounter.Counter.GetTrackNumberAt | mando-blaster/easycounter.h:103-109 | returns `TrackNumberAt` |

## Left out

- `scale8_video` is not part of the shown source. It is taken as FastLED's documented formula `((i * scale) >> 8) + (i && scale ? 1 : 0)`, and only two facts about it are used: it never exceeds `i`, and it is nonzero when both arguments are.
- `fadeToBlackBy` is not part of the shown source. It is modelled per channel as `c * (256 - fadeBy) / 256`, and only two facts about it are used: it never brightens a channel, and black stays black. So no lemma claims that a faded pixel is still lit, or that a finished pulse's trail is fully dark.
- `FastLED.show`, `addLeds`, `setBrightness`, `setMaxPowerInVoltsAndMilliamps` and `EasyLedv2::begin(brightness)` are device output and are not modelled.
- The `delay(100)` in `EasyLedv2::blasterShot` is a busy-wait with no effect on state, so it is omitted.
- `EasyLedv2::fadeInOut` and `leftToRight` are not modelled. They use floating point, a `setAll` that is defined nowhere, and `delay`.
- `millis()` becomes the explicit parameter `now`, a natural number, so its 32-bit wrap-around after about 49 days is not modelled.
- The gate times of `EVERY_N_MILLISECONDS` are static per call site in the source and shared by every instance of a class. The model gives each instance its own.
- Debug logging is not modelled. Neither are the `bool` results of the pattern helpers, which only decide whether to log. `advancePulseUp` and `advancePulseDown` in `ezBlasterPulse` return no value at all.
- The virtual `ezPattern` interface is not modelled as dispatch. Each pattern is its own class with the same `Activate`/`UpdateDisplay` shape.
- The callback is a ghost invocation counter, because the callbacks themselves are code outside the model.
- `EasyCounter`'s `name` is kept only as a field, because it only appears in log messages. `tick` returns `this` for chaining, and that return value is not modelled.
- The `EasyCounter` class comment shows a three-argument constructor, a `toggleCount` function and increments of ±2; the class has neither function. The code treats every increment other than ±1 as "never empty, never full, reset keeps the count, tick subtracts 1". The model follows the code.
- Zero initialisation: the `EasyCounter` objects in the sketch are globals, so the fields the constructor leaves unset start at zero, and the constructor here sets them to zero.
- EasyLedV2.Driver.constructor: the sketch declares no `EasyLedv2` object, and `CRGB leds[LED_COUNT]` is zeroed only in static storage. The model assumes static storage and starts the buffer black.
- The first evaluation of each `EVERY_N_MILLISECONDS` never fires. FastLED builds the static timer when its call site first runs, with the current time as its last firing. The constructors here start every gate at 0 instead, so the model's first due call can fire where the source's does not. For example, on the first blending frame after boot, the model doubles `blendRate` from 3 to 6, and the source leaves it at 3. A state whose gate holds the time its call site first ran behaves exactly like the source. Every lemma holds for any gate value, so every lemma also covers that state.
- No claim is made that mirrored pulses are symmetric. The code only bounds each half, and the two halves start from different heads.
- No claim is made that a shot's buffer never returns to all white. A white target colour makes it do so.
- BlasterPulse.ActiveFrame describes a frame only when `advanceUp < 127` and `advanceDown > -128`, so that neither `int8_t` head wraps in that frame. For example, an unmirrored pulse on 200 pixels with `advanceUp = 127` stores -128 into the head, and the lemma says nothing about that frame.
- BlasterPulse.UpdateKeepsCount, BlasterPulse.CallbackAtMostOnce and BlasterPulse.PulseCompletes are proved only when `endIdx + patternWidth + 1 <= 127`. Beyond that the `int8_t` head wraps, and with `count >= 128` and no mirroring the pulse never finishes.
- RepeatingPulse.UpdateKeepsCount, RepeatingPulse.CallbackAtMostOnce and RepeatingPulse.TrainCompletes carry the same no-wrap hypothesis as the single pulse.
- RepeatingPulse.TrainUpAt, RepeatingPulse.RoundUpAt and RepeatingPulse.ActiveFrame describe the drawn train only when `repeats * (width + space) <= 128` and the head is not negative; RepeatingPulse.ActiveFrame also needs `advanceUp < 127` before the frame, so that the `int8_t` head does not wrap. Larger trains, whose `int8_t` positions wrap, are still computed exactly by the functions, but are not characterised pixel by pixel.
- EasyLedV2.ShotStops promises a black strip only when a black colour comes with a black buffer at the start. A shot started from a black colour stops at once and leaves the white flash on the strip.
- BlasterShot.ShotCompletes, BlasterShot.ActivatedShotCompletes and EasyLedV2.ShotStops assume calls at least one frame apart. With sparser or denser calls they say nothing about the frame count, though BlasterShot.CallbackAtMostOnce holds for any call times.

## Findings

| source | as written | input that shows it | evidently intended | confidence | as-written member | corrected member |
|---|---|---|---|---|---|---|
| mando-blaster/easyledv2.h:50-51 | `setPixel(int Pixel, ...)` writes `leds[Pixel]` whenever `Pixel < LED_COUNT` | `Pixel = -1` passes the guard and writes before the start of `leds` | write only when `0 <= Pixel < LED_COUNT` | high; not executed | EasyLedV2.GuardAdmitsOutOfRange | EasyLedV2.PixelSet |
