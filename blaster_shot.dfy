/**
 * `ezBlasterShot`: a white flash, then a blend from the start colour to the
 * target colour, then a fade to black ("cooling"), then idle.
 *
 * `activated` is the phase: 3 flashing, 2 blending, 1 cooling, 0 idle.
 * `updateDisplay` runs its body at most once per `FRAME_RATE` milliseconds
 * and, inside it, the five helpers in the fixed order cooled, blended,
 * cooling, blending, flash. The pure functions below are the specification;
 * the class `ShotPattern` updates its fields and the pixel buffer in place
 * and is proved to compute exactly them.
 */
module BlasterShot {
  import opened FastLed
  import opened Blend
  import opened PatternBase

  const IDLE: Byte := 0
  const COOLING: Byte := 1
  const BLENDING: Byte := 2
  const FLASHING: Byte := 3

  /** `frameRate`, set to 16 by the constructor. */
  const FRAME_RATE: nat := 16
  /** Period of the gates that double `blendRate` (`frameRate*5`). */
  const DOUBLING_PERIOD: nat := FRAME_RATE * 5
  /** `blendRate` on activation, and on the switch to cooling. */
  const BLEND_START: Byte := 2
  const COOL_START: Byte := 32

  /**
   * The fields of one `ezBlasterShot`. The three gates are the `lastFire`
   * times of the three `EVERY_N_MILLISECONDS` call sites; `callbacks` counts
   * invocations of the completion callback.
   */
  datatype Shot = Shot(
    activated: Byte,
    current: Pixel,
    start: Pixel,
    target: Pixel,
    blendRate: Byte,
    flashTimer: nat,
    frameGate: nat,
    coolGate: nat,
    blendGate: nat,
    hasCallback: bool,
    callbacks: nat)

  /** A pattern state together with the pixel buffer it drives. */
  datatype Snapshot = Snapshot(s: Shot, leds: seq<Pixel>)

  /** One more callback invocation, if a callback was given. */
  function Notify(s: Shot): Shot
  {
    if s.hasCallback then s.(callbacks := s.callbacks + 1) else s
  }

  /** `activate`: restart from the start colour and flash white. */
  function Activated(s: Shot, leds: seq<Pixel>, count: nat, now: nat): (r: Snapshot)
    requires count <= |leds|
    ensures r.s.activated == FLASHING && r.s.current == s.start && r.s.blendRate == BLEND_START
    ensures r.s.flashTimer == now
    ensures |r.leds| == |leds|
    ensures forall i :: 0 <= i < count ==> r.leds[i] == White
  {
    Snapshot(s.(current := s.start, activated := FLASHING, blendRate := BLEND_START, flashTimer := now),
             Filled(leds, count, White))
  }

  /** `checkShotCooled`: a cooled shot becomes idle, clears the buffer and calls back. */
  function CooledCheck(s: Shot, leds: seq<Pixel>, count: nat): (r: Snapshot)
    requires count <= |leds|
    ensures |r.leds| == |leds|
  {
    if s.activated == COOLING && s.current == Black then
      Snapshot(Notify(s.(activated := IDLE)), Cleared(leds, count))
    else
      Snapshot(s, leds)
  }

  /** `checkShotBlended`: a blended shot starts cooling, faster. */
  function BlendedCheck(s: Shot): Shot
  {
    if s.activated == BLENDING && s.current == s.target then
      s.(activated := COOLING, blendRate := COOL_START)
    else
      s
  }

  /**
   * The blend-and-fill step shared by `coolingShot` and `blendingShot`:
   * one `fadeTowardColor` toward `goal`, `fill_solid` with the result,
   * `blendRate + 1`, and a doubling when that call site's gate is due.
   * The updated gate time is returned beside the state.
   */
  function BlendAndFill(s: Shot, goal: Pixel, gate: nat, leds: seq<Pixel>, count: nat, now: nat): (r: (Snapshot, nat))
    requires count <= |leds|
    ensures |r.0.leds| == |leds|
  {
    var c := FadeTowardColor(s.current, goal, s.blendRate);
    var rate := U8(s.blendRate + 1);
    if Ready(now, gate, DOUBLING_PERIOD) then
      (Snapshot(s.(current := c, blendRate := U8(rate * 2)), Filled(leds, count, c)), now)
    else
      (Snapshot(s.(current := c, blendRate := rate), Filled(leds, count, c)), gate)
  }

  /** `coolingShot`: in the cooling phase, blend toward black. */
  function CoolingStep(s: Shot, leds: seq<Pixel>, count: nat, now: nat): (r: Snapshot)
    requires count <= |leds|
    ensures |r.leds| == |leds|
  {
    if s.activated == COOLING then
      var (t, gate) := BlendAndFill(s, Black, s.coolGate, leds, count, now);
      t.(s := t.s.(coolGate := gate))
    else
      Snapshot(s, leds)
  }

  /** `blendingShot`: in the blending phase, blend toward the target. */
  function BlendingStep(s: Shot, leds: seq<Pixel>, count: nat, now: nat): (r: Snapshot)
    requires count <= |leds|
    ensures |r.leds| == |leds|
  {
    if s.activated == BLENDING then
      var (t, gate) := BlendAndFill(s, s.target, s.blendGate, leds, count, now);
      t.(s := t.s.(blendGate := gate))
    else
      Snapshot(s, leds)
  }

  /** `checkWhiteFlash`: the flash ends once more than `FLASH_DURATION` ms have passed. */
  function FlashCheck(s: Shot, now: nat): Shot
  {
    if s.activated == FLASHING && now - s.flashTimer > FLASH_DURATION as int then
      s.(activated := BLENDING)
    else
      s
  }

  /** The body of `updateDisplay`'s gate: the five helpers, in source order. */
  function Frame(s: Shot, leds: seq<Pixel>, count: nat, now: nat): (r: Snapshot)
    requires count <= |leds|
    ensures |r.leds| == |leds|
  {
    var a := CooledCheck(s, leds, count);
    var b := BlendedCheck(a.s);
    var c := CoolingStep(b, a.leds, count, now);
    var d := BlendingStep(c.s, c.leds, count, now);
    Snapshot(FlashCheck(d.s, now), d.leds)
  }

  /** `updateDisplay(leds, count)` called at time `now`. */
  function Update(s: Shot, leds: seq<Pixel>, count: nat, now: nat): (r: Snapshot)
    requires count <= |leds|
    ensures |r.leds| == |leds|
  {
    if Ready(now, s.frameGate, FRAME_RATE) then Frame(s.(frameGate := now), leds, count, now)
    else Snapshot(s, leds)
  }

  /** `updateDisplay` called once at each of the times `nows`, in order. */
  function Run(s: Shot, leds: seq<Pixel>, count: nat, nows: seq<nat>): (r: Snapshot)
    requires count <= |leds|
    ensures |r.leds| == |leds|
    decreases |nows|
  {
    if nows == [] then Snapshot(s, leds)
    else
      var n := Update(s, leds, count, nows[0]);
      Run(n.s, n.leds, count, nows[1..])
  }

  // ---------------------------------------------------------------------
  // One frame, phase by phase
  // ---------------------------------------------------------------------

  /** A `blendRate` after one blend step: incremented, and doubled if that gate was due (both mod 256). */
  predicate NextRate(oldRate: Byte, rate: Byte)
  {
    rate == U8(oldRate + 1) || rate == U8(U8(oldRate + 1) * 2)
  }

  /**
   * Flashing: the frame only decides whether the flash is over, which it is
   * exactly when more than 75 ms have passed since activation. Nothing else,
   * the buffer included, changes.
   */
  lemma FlashFrame(s: Shot, leds: seq<Pixel>, count: nat, now: nat)
    requires count <= |leds|
    requires s.activated == FLASHING
    ensures Frame(s, leds, count, now) ==
      Snapshot(s.(activated := if now - s.flashTimer > 75 then BLENDING else FLASHING), leds)
  {
  }

  /**
   * Blending, target not yet reached: the colour takes one step toward the
   * target, every pixel shows it and the rate moves on; the phase stays.
   */
  lemma BlendingFrame(s: Shot, leds: seq<Pixel>, count: nat, now: nat)
    requires count <= |leds|
    requires s.activated == BLENDING && s.current != s.target
    ensures var r := Frame(s, leds, count, now);
      && r.s.activated == BLENDING
      && r.s.current == FadeTowardColor(s.current, s.target, s.blendRate)
      && r.leds == Filled(leds, count, r.s.current)
      && NextRate(s.blendRate, r.s.blendRate)
      && r.s.callbacks == s.callbacks
  {
  }

  /**
   * Blending, target reached: in the same frame the phase becomes cooling
   * with `blendRate` 32, and the first cooling step toward black already
   * runs (so the rate ends at 33, or 66 if doubled).
   */
  lemma BlendedFrame(s: Shot, leds: seq<Pixel>, count: nat, now: nat)
    requires count <= |leds|
    requires s.activated == BLENDING && s.current == s.target
    ensures var r := Frame(s, leds, count, now);
      && r.s.activated == COOLING
      && r.s.current == FadeTowardColor(s.target, Black, COOL_START)
      && r.leds == Filled(leds, count, r.s.current)
      && (r.s.blendRate == 33 || r.s.blendRate == 66)
      && r.s.callbacks == s.callbacks
  {
  }

  /** Cooling, not yet black: one step toward black, every pixel shows it. */
  lemma CoolingFrame(s: Shot, leds: seq<Pixel>, count: nat, now: nat)
    requires count <= |leds|
    requires s.activated == COOLING && s.current != Black
    ensures var r := Frame(s, leds, count, now);
      && r.s.activated == COOLING
      && r.s.current == FadeTowardColor(s.current, Black, s.blendRate)
      && r.leds == Filled(leds, count, r.s.current)
      && NextRate(s.blendRate, r.s.blendRate)
      && r.s.callbacks == s.callbacks
  {
  }

  /** Cooling, black reached: idle, buffer cleared, callback invoked once. */
  lemma CooledFrame(s: Shot, leds: seq<Pixel>, count: nat, now: nat)
    requires count <= |leds|
    requires s.activated == COOLING && s.current == Black
    ensures Frame(s, leds, count, now) == Snapshot(Notify(s.(activated := IDLE)), Cleared(leds, count))
  {
  }

  /** Idle (or any value outside 1..3): a call changes nothing but the gate time. */
  lemma IdleUpdate(s: Shot, leds: seq<Pixel>, count: nat, now: nat)
    requires count <= |leds|
    requires s.activated == IDLE || s.activated > FLASHING
    ensures var r := Update(s, leds, count, now);
      r.leds == leds && r.s == s.(frameGate := r.s.frameGate)
  {
  }

  /** A call between gate firings changes nothing at all. */
  lemma GatedUpdate(s: Shot, leds: seq<Pixel>, count: nat, now: nat)
    requires count <= |leds|
    requires !Ready(now, s.frameGate, FRAME_RATE)
    ensures Update(s, leds, count, now) == Snapshot(s, leds)
  {
  }

  // ---------------------------------------------------------------------
  // Runs of many calls
  // ---------------------------------------------------------------------

  /** Idle stays idle: a whole run changes neither the buffer nor the callback count. */
  lemma {:induction false} IdleRun(s: Shot, leds: seq<Pixel>, count: nat, nows: seq<nat>)
    requires count <= |leds|
    requires s.activated == IDLE
    ensures var r := Run(s, leds, count, nows);
      r.leds == leds && r.s.activated == IDLE && r.s.callbacks == s.callbacks
    decreases |nows|
  {
    if nows != [] {
      IdleUpdate(s, leds, count, nows[0]);
      var n := Update(s, leds, count, nows[0]);
      IdleRun(n.s, n.leds, count, nows[1..]);
    }
  }

  /**
   * At most one callback per activation: whatever the call times, a run
   * adds at most one callback, and none from an idle shot.
   */
  lemma {:induction false} CallbackAtMostOnce(s: Shot, leds: seq<Pixel>, count: nat, nows: seq<nat>)
    requires count <= |leds|
    ensures var r := Run(s, leds, count, nows);
      s.callbacks <= r.s.callbacks <= s.callbacks + (if s.activated != IDLE then 1 else 0)
    decreases |nows|
  {
    if nows != [] {
      var n := Update(s, leds, count, nows[0]);
      if s.activated == IDLE {
        IdleRun(s, leds, count, nows);
      } else if n.s.activated == IDLE {
        assert n.s.callbacks <= s.callbacks + 1;
        IdleRun(n.s, n.leds, count, nows[1..]);
      } else {
        assert n.s.callbacks == s.callbacks;
        CallbackAtMostOnce(n.s, n.leds, count, nows[1..]);
      }
    }
  }

  /**
   * A bound on the frames still needed to finish from blending or cooling.
   * Each frame with a nonzero `blendRate` strictly shortens the distance to
   * the phase's goal colour; a zero rate (the uint8 rate can wrap to 0)
   * stalls one frame, after which the rate is 1 or 2.
   */
  function Potential(s: Shot): nat
  {
    var stalled := if s.blendRate == 0 then 1 else 0;
    if s.activated == BLENDING then 2 * (767 + PixelDist(s.current, s.target)) + stalled
    else if s.activated == COOLING then 2 * (1 + PixelDist(s.current, Black)) + stalled
    else 0
  }

  lemma PotentialBound(s: Shot)
    ensures Potential(s) <= 3065
  {
  }

  /**
   * What a blending or cooling frame achieves: a lower potential, the
   * colours, the callback flag and the frame gate kept, and either the
   * finishing transition or no callback and a phase still in progress.
   */
  predicate Progressed(s: Shot, leds: seq<Pixel>, count: nat, r: Snapshot)
    requires count <= |leds|
  {
    && Potential(r.s) < Potential(s)
    && r.s.start == s.start && r.s.target == s.target && r.s.hasCallback == s.hasCallback
    && r.s.frameGate == s.frameGate
    && (r.s.activated == IDLE ==> r == Snapshot(Notify(s.(activated := IDLE)), Cleared(leds, count)))
    && (r.s.activated != IDLE ==> r.s.callbacks == s.callbacks && (r.s.activated == BLENDING || r.s.activated == COOLING))
  }

  lemma BlendedProgress(s: Shot, leds: seq<Pixel>, count: nat, now: nat)
    requires count <= |leds|
    requires s.activated == BLENDING && s.current == s.target
    ensures Progressed(s, leds, count, Frame(s, leds, count, now))
  {
    var b := s.(activated := COOLING, blendRate := COOL_START);
    assert CooledCheck(s, leds, count) == Snapshot(s, leds);
    assert BlendedCheck(s) == b;
    var c := CoolingStep(b, leds, count, now);
    assert BlendingStep(c.s, c.leds, count, now) == c;
    assert Frame(s, leds, count, now) == c;
    assert c.s.activated == COOLING && c.s.blendRate != 0;
    assert Potential(s) >= 1534;
    assert PixelDist(c.s.current, Black) <= 765;
  }

  lemma BlendingProgress(s: Shot, leds: seq<Pixel>, count: nat, now: nat)
    requires count <= |leds|
    requires s.activated == BLENDING && s.current != s.target
    ensures Progressed(s, leds, count, Frame(s, leds, count, now))
  {
    BlendingFrame(s, leds, count, now);
    var r := Frame(s, leds, count, now);
    if s.blendRate == 0 {
      assert r.s.blendRate != 0;
    }
  }

  lemma CoolingProgress(s: Shot, leds: seq<Pixel>, count: nat, now: nat)
    requires count <= |leds|
    requires s.activated == COOLING && s.current != Black
    ensures Progressed(s, leds, count, Frame(s, leds, count, now))
  {
    CoolingFrame(s, leds, count, now);
    var r := Frame(s, leds, count, now);
    if s.blendRate == 0 {
      assert r.s.blendRate != 0;
    }
  }

  /** A frame in blending or cooling lowers the potential, and keeps the callback count unless it finishes. */
  lemma FrameProgress(s: Shot, leds: seq<Pixel>, count: nat, now: nat)
    requires count <= |leds|
    requires s.activated == BLENDING || s.activated == COOLING
    ensures var r := Frame(s, leds, count, now);
      && Potential(r.s) < Potential(s)
      && r.s.start == s.start && r.s.target == s.target && r.s.hasCallback == s.hasCallback
      && r.s.frameGate == s.frameGate
      && (r.s.activated == IDLE ==> r == Snapshot(Notify(s.(activated := IDLE)), Cleared(leds, count)))
      && (r.s.activated != IDLE ==> r.s.callbacks == s.callbacks && (r.s.activated == BLENDING || r.s.activated == COOLING))
  {
    if s.activated == BLENDING && s.current == s.target {
      BlendedProgress(s, leds, count, now);
    } else if s.activated == BLENDING {
      BlendingProgress(s, leds, count, now);
    } else if s.current == Black {
      CooledFrame(s, leds, count, now);
    } else {
      CoolingProgress(s, leds, count, now);
    }
  }

  /**
   * The shot finishes: driven by calls at least one frame apart, a shot in
   * blending or cooling is idle after `Potential(s)` calls (at most 3065),
   * with the buffer black and the callback invoked exactly once.
   */
  lemma {:induction false} ShotCompletes(s: Shot, leds: seq<Pixel>, count: nat, nows: seq<nat>)
    requires count <= |leds|
    requires s.activated == BLENDING || s.activated == COOLING
    requires Spaced(nows, s.frameGate, FRAME_RATE)
    requires |nows| >= Potential(s)
    ensures var r := Run(s, leds, count, nows);
      && r.s.activated == IDLE
      && r.s.callbacks == Notify(s).callbacks
      && DarkPrefix(r.leds, count)
    decreases |nows|
  {
    var n := Update(s, leds, count, nows[0]);
    FrameProgress(s.(frameGate := nows[0]), leds, count, nows[0]);
    if n.s.activated == IDLE {
      IdleRun(n.s, n.leds, count, nows[1..]);
    } else {
      ShotCompletes(n.s, n.leds, count, nows[1..]);
    }
  }

  /**
   * From the flash: while flashing, each frame either ends the flash or
   * leaves everything but the frame gate alone. With the first call `m`
   * frames short of the flash's end, the shot is idle, black and notified
   * once after `m + 3066` calls.
   */
  lemma {:induction false} FlashThenCompletes(s: Shot, leds: seq<Pixel>, count: nat, nows: seq<nat>, m: nat)
    requires count <= |leds|
    requires s.activated == FLASHING
    requires Spaced(nows, s.frameGate, FRAME_RATE)
    requires |nows| >= m + 3066
    requires nows[0] + FRAME_RATE * m > s.flashTimer + FLASH_DURATION as int
    ensures var r := Run(s, leds, count, nows);
      && r.s.activated == IDLE
      && r.s.callbacks == Notify(s).callbacks
      && DarkPrefix(r.leds, count)
    decreases m
  {
    var n := Update(s, leds, count, nows[0]);
    FlashFrame(s.(frameGate := nows[0]), leds, count, nows[0]);
    if n.s.activated == BLENDING {
      PotentialBound(n.s);
      ShotCompletes(n.s, n.leds, count, nows[1..]);
    } else {
      FlashThenCompletes(n.s, n.leds, count, nows[1..], m - 1);
    }
  }

  /**
   * The whole shot: after `activate` at time `t`, calls at least one frame
   * apart, the first no earlier than `t`, leave the shot idle with the
   * buffer black and the callback invoked exactly once within 3071 calls
   * (at most 6 flash frames, then at most 3065 blending and cooling ones).
   */
  lemma ActivatedShotCompletes(s: Shot, leds: seq<Pixel>, count: nat, t: nat, nows: seq<nat>)
    requires count <= |leds|
    requires Spaced(nows, s.frameGate, FRAME_RATE)
    requires |nows| >= 3071
    requires nows[0] >= t
    ensures var a := Activated(s, leds, count, t);
      var r := Run(a.s, a.leds, count, nows);
      && r.s.activated == IDLE
      && r.s.callbacks == Notify(s).callbacks
      && DarkPrefix(r.leds, count)
  {
    var a := Activated(s, leds, count, t);
    FlashThenCompletes(a.s, a.leds, count, nows, 5);
  }

  /**
   * One `ezBlasterShot` driving a pixel buffer. The method bodies follow
   * the C++ member functions; each is proved to compute the function of
   * the same name above.
   */
  class ShotPattern {
    var activated: Byte
    var currentColor: Pixel
    var startColor: Pixel
    var targetColor: Pixel
    var blendRate: Byte
    var flashTimer: nat
    var frameGate: nat
    var coolGate: nat
    var blendGate: nat
    const hasCallback: bool
    ghost var callbacks: nat

    ghost function State(): Shot
      reads this
    {
      Shot(activated, currentColor, startColor, targetColor, blendRate,
           flashTimer, frameGate, coolGate, blendGate, hasCallback, callbacks)
    }

    /** `ezBlasterShot(initialColor, endColor, callback)`; the clock starts at 0. */
    constructor (initialColor: Pixel, endColor: Pixel, callback: bool)
      ensures State() == Shot(IDLE, Black, initialColor, endColor, BLEND_START, 0, 0, 0, 0, callback, 0)
    {
      activated := IDLE;
      currentColor := Black;
      startColor := initialColor;
      targetColor := endColor;
      blendRate := BLEND_START;
      flashTimer, frameGate, coolGate, blendGate := 0, 0, 0, 0;
      hasCallback := callback;
      callbacks := 0;
    }

    /** `initialize`: new colours for the next activation; nothing else changes. */
    method Initialize(initialColor: Pixel, endColor: Pixel)
      modifies this
      ensures State() == old(State()).(start := initialColor, target := endColor)
    {
      startColor := initialColor;
      targetColor := endColor;
    }

    /** `activate`, including `whiteflash`. */
    method Activate(leds: array<Pixel>, count: Byte, now: nat)
      requires count <= leds.Length
      modifies this, leds
      ensures Snapshot(State(), leds[..]) == Activated(old(State()), old(leds[..]), count, now)
    {
      currentColor := startColor;
      activated := FLASHING;
      blendRate := BLEND_START;
      flashTimer := now;
      FillSolid(leds, count, White);
    }

    /** `updateDisplay`: gated by `EVERY_N_MILLISECONDS(frameRate)`. */
    method UpdateDisplay(leds: array<Pixel>, count: Byte, now: nat)
      requires count <= leds.Length
      modifies this, leds
      ensures Snapshot(State(), leds[..]) == Update(old(State()), old(leds[..]), count, now)
    {
      if Ready(now, frameGate, FRAME_RATE) {
        frameGate := now;
        CheckShotCooled(leds, count);
        CheckShotBlended();
        CoolingShot(leds, count, now);
        BlendingShot(leds, count, now);
        CheckWhiteFlash(now);
      }
    }

    method CheckShotCooled(leds: array<Pixel>, count: Byte)
      requires count <= leds.Length
      modifies this, leds
      ensures Snapshot(State(), leds[..]) == CooledCheck(old(State()), old(leds[..]), count)
    {
      if activated == COOLING && currentColor == Black {
        activated := IDLE;
        Clear(leds, count);
        if hasCallback {
          callbacks := callbacks + 1;
        }
      }
    }

    method CheckShotBlended()
      modifies this
      ensures State() == BlendedCheck(old(State()))
    {
      if activated == BLENDING && currentColor == targetColor {
        activated := COOLING;
        blendRate := COOL_START;
      }
    }

    method CoolingShot(leds: array<Pixel>, count: Byte, now: nat)
      requires count <= leds.Length
      modifies this, leds
      ensures Snapshot(State(), leds[..]) == CoolingStep(old(State()), old(leds[..]), count, now)
    {
      if activated == COOLING {
        currentColor := FadeTowardColor(currentColor, Black, blendRate);
        FillSolid(leds, count, currentColor);
        blendRate := U8(blendRate + 1);
        if Ready(now, coolGate, DOUBLING_PERIOD) {
          coolGate := now;
          blendRate := U8(blendRate * 2);
        }
      }
    }

    method BlendingShot(leds: array<Pixel>, count: Byte, now: nat)
      requires count <= leds.Length
      modifies this, leds
      ensures Snapshot(State(), leds[..]) == BlendingStep(old(State()), old(leds[..]), count, now)
    {
      if activated == BLENDING {
        currentColor := FadeTowardColor(currentColor, targetColor, blendRate);
        FillSolid(leds, count, currentColor);
        blendRate := U8(blendRate + 1);
        if Ready(now, blendGate, DOUBLING_PERIOD) {
          blendGate := now;
          blendRate := U8(blendRate * 2);
        }
      }
    }

    method CheckWhiteFlash(now: nat)
      modifies this
      ensures State() == FlashCheck(old(State()), now)
    {
      if activated == FLASHING {
        var duration := now - flashTimer;
        if duration > FLASH_DURATION as int {
          activated := BLENDING;
        }
      }
    }
  }
}
