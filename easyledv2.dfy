/**
 * `EasyLedv2<LED_COUNT, LED_PIN_IN>`: the earlier, single-pattern LED
 * driver. It owns its pixel buffer and runs one shot: a white flash, a
 * blend to the target colour, a blend to black, then stop. `fadeToColor`
 * is a C++ `boolean`, so its values 2 ("toward the target") and 1 ("toward
 * black") are both just true; the phase toward black is recognised only by
 * the target having been set to black.
 *
 * `updateDisplay` holds two `EVERY_N_MILLISECONDS` gates: every `fadeRate`
 * (42 ms) one blend frame, and every `5 * fadeRate` a doubling of
 * `blendRate` while a shot is active. As elsewhere, time is the explicit
 * parameter `now` and each gate keeps its last firing time.
 */
module EasyLedV2 {
  import opened FastLed
  import opened Blend

  /** The frame period, called `fadeRate` in the source. */
  const FADE_RATE: nat := 42
  const DOUBLING_PERIOD: nat := FADE_RATE * 5
  const BLEND_START: Byte := 2
  const COOL_START: Byte := 32

  /** The fields that `blasterShot` and `updateDisplay` change, and the two gate times. */
  datatype Shot = Shot(
    current: Pixel,
    target: Pixel,
    fadeToColor: bool,
    blendRate: Byte,
    frameGate: nat,
    doubleGate: nat)

  datatype Snapshot = Snapshot(s: Shot, leds: seq<Pixel>)

  /** The template condition `LED_COUNT > 0 && LED_PIN_IN > 0` that guards every operation. */
  predicate Enabled(ledCount: nat, ledPin: int)
  {
    ledCount > 0 && ledPin > 0
  }

  /**
   * The guard of `setPixel(int Pixel, ...)` as written: only the upper
   * bound `Pixel < LED_COUNT` is tested.
   */
  predicate GuardAsWritten(i: int, ledCount: nat)
  {
    i < ledCount
  }

  /** For every buffer size, the written guard lets through an index outside the buffer (-1). */
  lemma GuardAdmitsOutOfRange(ledCount: nat)
    ensures exists i :: GuardAsWritten(i, ledCount) && !(0 <= i < ledCount)
  {
    assert GuardAsWritten(-1, ledCount);
  }

  /**
   * `setPixel(i, red, green, blue)` with the intended guard `0 <= i < LED_COUNT`:
   * pixel `i` takes the three channels when it is inside the buffer; for any
   * other index, negative ones included, nothing changes.
   */
  function PixelSet(leds: seq<Pixel>, i: int, red: Byte, green: Byte, blue: Byte): (t: seq<Pixel>)
    ensures |t| == |leds|
    ensures 0 <= i < |leds| ==> t[i] == Pixel(red, green, blue)
    ensures forall j :: 0 <= j < |leds| && j != i ==> t[j] == leds[j]
    ensures !(0 <= i < |leds|) ==> t == leds
  {
    if 0 <= i < |leds| then leds[i := Pixel(red, green, blue)] else leds
  }

  /** On non-negative indices the intended guard is exactly the written one. */
  lemma PixelSetAgreesWithGuard(leds: seq<Pixel>, i: int, red: Byte, green: Byte, blue: Byte)
    requires i >= 0
    ensures PixelSet(leds, i, red, green, blue) ==
      if GuardAsWritten(i, |leds|) then leds[i := Pixel(red, green, blue)] else leds
  {
  }

  /** `blasterShot(start, end)` on an enabled driver: start blending from `start` toward `end`, all pixels white. */
  function Started(s: Shot, leds: seq<Pixel>, start: Pixel, end: Pixel, enabled: bool): (r: Snapshot)
    ensures enabled ==> r.s.current == start && r.s.target == end && r.s.fadeToColor && r.s.blendRate == BLEND_START
    ensures enabled ==> |r.leds| == |leds| && forall i :: 0 <= i < |leds| ==> r.leds[i] == White
    ensures !enabled ==> r == Snapshot(s, leds)
    ensures r.s.frameGate == s.frameGate && r.s.doubleGate == s.doubleGate
  {
    if enabled then
      Snapshot(s.(current := start, target := end, fadeToColor := true, blendRate := BLEND_START),
               Filled(leds, |leds|, White))
    else
      Snapshot(s, leds)
  }

  /** The "stop fading" check: an active shot whose colour is black stops. */
  function Stopped(s: Shot): Shot
  {
    if s.fadeToColor && s.current == Black then s.(fadeToColor := false) else s
  }

  /** The "fade to black" check: an active shot that has reached its target now blends toward black, faster. */
  function Retargeted(s: Shot): Shot
  {
    if s.fadeToColor && s.current == s.target then s.(target := Black, blendRate := COOL_START) else s
  }

  /** The blend step: while active, one `fadeTowardColor`, every pixel set to the result, `blendRate + 1`. */
  function Blended(s: Shot, leds: seq<Pixel>): (r: Snapshot)
    ensures |r.leds| == |leds|
  {
    if s.fadeToColor then
      var c := FadeTowardColor(s.current, s.target, s.blendRate);
      Snapshot(s.(current := c, blendRate := U8(s.blendRate + 1)), Filled(leds, |leds|, c))
    else
      Snapshot(s, leds)
  }

  /** The body of the first gate. */
  function Frame(s: Shot, leds: seq<Pixel>): (r: Snapshot)
    ensures |r.leds| == |leds|
  {
    Blended(Retargeted(Stopped(s)), leds)
  }

  /** `updateDisplay()` at time `now`: the frame gate, then the doubling gate, both skipped when disabled. */
  function Update(s: Shot, leds: seq<Pixel>, now: nat, enabled: bool): (r: Snapshot)
    ensures |r.leds| == |leds|
  {
    if !enabled then Snapshot(s, leds)
    else
      var a := if Ready(now, s.frameGate, FADE_RATE) then Frame(s.(frameGate := now), leds) else Snapshot(s, leds);
      if Ready(now, a.s.doubleGate, DOUBLING_PERIOD) then
        var rate := if a.s.fadeToColor then U8(a.s.blendRate * 2) else a.s.blendRate;
        a.(s := a.s.(doubleGate := now, blendRate := rate))
      else a
  }

  /** `updateDisplay` called once at each of the times `nows`. */
  function Run(s: Shot, leds: seq<Pixel>, nows: seq<nat>, enabled: bool): (r: Snapshot)
    ensures |r.leds| == |leds|
    decreases |nows|
  {
    if nows == [] then Snapshot(s, leds)
    else
      var n := Update(s, leds, nows[0], enabled);
      Run(n.s, n.leds, nows[1..], enabled)
  }

  // ---------------------------------------------------------------------
  // One frame, case by case
  // ---------------------------------------------------------------------

  /** An active shot at black stops, and the frame then writes nothing. */
  lemma StopFrame(s: Shot, leds: seq<Pixel>)
    requires s.fadeToColor && s.current == Black
    ensures Frame(s, leds) == Snapshot(s.(fadeToColor := false), leds)
  {
  }

  /**
   * An active shot that has reached a non-black target turns toward black
   * with `blendRate` 32, and already takes its first step in the same frame.
   */
  lemma RetargetFrame(s: Shot, leds: seq<Pixel>)
    requires s.fadeToColor && s.current == s.target && s.current != Black
    ensures var r := Frame(s, leds);
      && r.s.fadeToColor && r.s.target == Black
      && r.s.current == FadeTowardColor(s.current, Black, COOL_START)
      && r.s.blendRate == COOL_START + 1
      && r.leds == Filled(leds, |leds|, r.s.current)
      && PixelDist(r.s.current, Black) < PixelDist(s.current, Black)
  {
  }

  /** Any other active frame: one step toward the target, shown on every pixel. */
  lemma ActiveFrame(s: Shot, leds: seq<Pixel>)
    requires s.fadeToColor && s.current != Black && s.current != s.target
    ensures var r := Frame(s, leds);
      && r.s.fadeToColor && r.s.target == s.target
      && r.s.current == FadeTowardColor(s.current, s.target, s.blendRate)
      && r.s.blendRate == U8(s.blendRate + 1)
      && r.leds == Filled(leds, |leds|, r.s.current)
  {
  }

  /** An inactive driver changes nothing but its gate times: no pixel, no colour, no rate. */
  lemma InactiveUpdate(s: Shot, leds: seq<Pixel>, now: nat, enabled: bool)
    requires !s.fadeToColor
    ensures var r := Update(s, leds, now, enabled);
      r.leds == leds && r.s == s.(frameGate := r.s.frameGate, doubleGate := r.s.doubleGate)
  {
  }

  /**
   * `blendRate` only changes while a shot is active: in a call that starts
   * inactive, or in which the shot is stopped, the rate is the same after
   * it.
   */
  lemma RateOnlyChangesWhileActive(s: Shot, leds: seq<Pixel>, now: nat, enabled: bool)
    requires !s.fadeToColor || s.current == Black
    requires Ready(now, s.frameGate, FADE_RATE)
    ensures Update(s, leds, now, enabled).s.blendRate == s.blendRate
  {
  }

  /** A disabled driver ignores every run of calls. */
  lemma {:induction false} DisabledRun(s: Shot, leds: seq<Pixel>, nows: seq<nat>)
    ensures Run(s, leds, nows, false) == Snapshot(s, leds)
    decreases |nows|
  {
    if nows != [] {
      DisabledRun(s, leds, nows[1..]);
    }
  }

  /** A stopped shot stays stopped and keeps the buffer as it is, through any run of calls. */
  lemma {:induction false} InactiveRun(s: Shot, leds: seq<Pixel>, nows: seq<nat>, enabled: bool)
    requires !s.fadeToColor
    ensures var r := Run(s, leds, nows, enabled);
      && r.leds == leds && !r.s.fadeToColor
      && r.s.current == s.current && r.s.target == s.target && r.s.blendRate == s.blendRate
    decreases |nows|
  {
    if nows != [] {
      var n := Update(s, leds, nows[0], enabled);
      InactiveUpdate(s, leds, nows[0], enabled);
      InactiveRun(n.s, n.leds, nows[1..], enabled);
    }
  }

  /** Every pixel of the buffer is black. */
  predicate AllBlack(leds: seq<Pixel>)
  {
    forall i :: 0 <= i < |leds| ==> leds[i] == Black
  }

  /**
   * A bound on the frames an active shot still needs before it stops. A
   * frame with a nonzero `blendRate` strictly shortens the distance to the
   * current target; a zero rate (the `uint8_t` rate can wrap to 0) stalls
   * one frame, after which the rate is 1 or 2. Reaching a non-black target
   * trades the first term for the smaller second one.
   */
  function Potential(s: Shot): nat
  {
    var stalled := if s.blendRate == 0 then 1 else 0;
    if !s.fadeToColor then 0
    else if s.current == Black then 1
    else if s.target == Black then 2 * (1 + PixelDist(s.current, Black)) + stalled
    else 2 * (767 + PixelDist(s.current, s.target)) + stalled
  }

  /**
   * A call that finds the frame gate due lowers the potential of an active
   * shot; if the buffer was all black whenever the colour was black, that
   * stays so, and a shot that stops is black.
   */
  lemma UpdateProgress(s: Shot, leds: seq<Pixel>, now: nat)
    requires s.fadeToColor && Ready(now, s.frameGate, FADE_RATE)
    ensures var r := Update(s, leds, now, true);
      && Potential(r.s) < Potential(s)
      && r.s.frameGate == now
      && ((s.current == Black ==> AllBlack(leds)) ==> (r.s.current == Black ==> AllBlack(r.leds)))
      && (!r.s.fadeToColor ==> r.s.current == Black)
  {
    var a := Frame(s.(frameGate := now), leds);
    var r := Update(s, leds, now, true);
    if s.current == Black {
      StopFrame(s.(frameGate := now), leds);
    } else if s.current == s.target {
      RetargetFrame(s.(frameGate := now), leds);
      assert r.s.blendRate != 0;
    } else {
      ActiveFrame(s.(frameGate := now), leds);
      assert a.s.current != Black ==> r.s.current == a.s.current;
      if s.blendRate == 0 {
        assert r.s.blendRate != 0;
      }
    }
  }

  /**
   * Every shot stops: driven by calls at least one frame apart, an active
   * shot is stopped with a black colour after `Potential(s)` calls (at most
   * 3065). Every pixel is then black too, unless the shot began with a
   * black colour over a buffer that was not black (a black start colour
   * leaves the white flash on the strip).
   */
  lemma {:induction false} ShotStops(s: Shot, leds: seq<Pixel>, nows: seq<nat>)
    requires s.fadeToColor
    requires Spaced(nows, s.frameGate, FADE_RATE)
    requires |nows| >= Potential(s)
    ensures var r := Run(s, leds, nows, true);
      && !r.s.fadeToColor && r.s.current == Black
      && ((s.current == Black ==> AllBlack(leds)) ==> AllBlack(r.leds))
    decreases |nows|
  {
    var n := Update(s, leds, nows[0], true);
    UpdateProgress(s, leds, nows[0]);
    if !n.s.fadeToColor {
      InactiveRun(n.s, n.leds, nows[1..], true);
    } else {
      ShotStops(n.s, n.leds, nows[1..]);
    }
  }

  lemma PotentialBound(s: Shot)
    ensures Potential(s) <= 3065
  {
  }

  /** `EasyLedv2` with its template arguments as constants. */
  class Driver {
    const ledCount: Byte
    const ledPin: int
    const leds: array<Pixel>
    var currentColor: Pixel
    var targetColor: Pixel
    var fadeToColor: bool
    var blendRate: Byte
    var frameGate: nat
    var doubleGate: nat

    ghost predicate Valid()
    {
      leds.Length == ledCount
    }

    ghost function State(): Shot
      reads this
    {
      Shot(currentColor, targetColor, fadeToColor, blendRate, frameGate, doubleGate)
    }

    /** `EasyLedv2()`: both colours black, not fading, `blendRate` 2; the buffer starts black. */
    constructor (count: Byte, pin: int)
      ensures Valid() && ledCount == count && ledPin == pin && fresh(leds)
      ensures State() == Shot(Black, Black, false, BLEND_START, 0, 0)
      ensures forall i :: 0 <= i < leds.Length ==> leds[i] == Black
    {
      ledCount, ledPin := count, pin;
      leds := new Pixel[count](_ => Black);
      currentColor, targetColor := Black, Black;
      fadeToColor := false;
      blendRate := BLEND_START;
      frameGate, doubleGate := 0, 0;
    }

    method SetPixel(i: int, red: Byte, green: Byte, blue: Byte)
      requires Valid()
      modifies leds
      ensures leds[..] == PixelSet(old(leds[..]), i, red, green, blue)
    {
      if 0 <= i < ledCount {
        leds[i] := Pixel(red, green, blue);
      }
    }

    method BlasterShot(startColor: Pixel, endColor: Pixel)
      requires Valid()
      modifies this, leds
      ensures Snapshot(State(), leds[..]) ==
        Started(old(State()), old(leds[..]), startColor, endColor, Enabled(ledCount, ledPin))
    {
      if ledCount > 0 && ledPin > 0 {
        currentColor := startColor;
        targetColor := endColor;
        fadeToColor := true;
        blendRate := BLEND_START;
        FillSolid(leds, ledCount, White);
      }
    }

    method UpdateDisplay(now: nat)
      requires Valid()
      modifies this, leds
      ensures Snapshot(State(), leds[..]) == Update(old(State()), old(leds[..]), now, Enabled(ledCount, ledPin))
    {
      if ledCount > 0 && ledPin > 0 {
        if Ready(now, frameGate, FADE_RATE) {
          frameGate := now;
          if fadeToColor && currentColor == Black {
            fadeToColor := false;
          }
          if fadeToColor && currentColor == targetColor {
            targetColor := Black;
            blendRate := COOL_START;
          }
          if fadeToColor {
            currentColor := FadeTowardColor(currentColor, targetColor, blendRate);
            FillSolid(leds, ledCount, currentColor);
            blendRate := U8(blendRate + 1);
          }
        }
        if Ready(now, doubleGate, DOUBLING_PERIOD) {
          doubleGate := now;
          if fadeToColor {
            blendRate := U8(blendRate * 2);
          }
        }
      }
    }
  }
}
