/**
 * `ezBlasterPulse`: a segment of `width` pixels travelling up the strip one
 * pixel per frame, leaving a fading trail. On a mirrored strip (two equal
 * strips in series) the segment runs up the lower half while a second one
 * runs down from the top into the upper half.
 *
 * `advanceUp`, `advanceDown` and `middle` are `int8_t` in the source; every
 * store into them wraps (`I8`). The pure functions are the specification;
 * the class `PulsePattern` updates its fields and the buffer in place and
 * is proved to compute exactly them.
 */
module BlasterPulse {
  import opened FastLed
  import opened PatternBase

  const IDLE: Byte := 0
  const ACTIVE: Byte := 1

  /** The fields of one `ezBlasterPulse`; `callbacks` counts callback invocations. */
  datatype Pulse = Pulse(
    activated: Byte,
    advanceUp: Int8,
    advanceDown: Int8,
    middle: Int8,
    color: Pixel,
    width: Byte,
    patternWidth: Byte,
    mirrored: bool,
    frameRate: Byte,
    frameGate: nat,
    hasCallback: bool,
    callbacks: nat)

  datatype Snapshot = Snapshot(s: Pulse, leds: seq<Pixel>)

  function Notify(s: Pulse): Pulse
  {
    if s.hasCallback then s.(callbacks := s.callbacks + 1) else s
  }

  /** `endIdx` of the upward pass: the middle on a mirrored strip, else the whole strip. */
  function EndIdx(s: Pulse, count: Byte): Byte
  {
    if s.mirrored then U8(s.middle) else count
  }

  /** The buffer holds the first `count` pixels and every pixel the upward pass may write. */
  predicate Fits(s: Pulse, leds: seq<Pixel>, count: Byte)
  {
    count <= |leds| && EndIdx(s, count) <= |leds|
  }

  /**
   * The loop of `advancePulseUp` after its first `k` rounds: round `w`
   * writes `color` at `up - w` when that index lies in `[0, endIdx)`.
   */
  function PaintUp(leds: seq<Pixel>, up: int, color: Pixel, endIdx: nat, k: nat): (r: seq<Pixel>)
    requires endIdx <= |leds|
    ensures |r| == |leds|
    decreases k
  {
    if k == 0 then leds
    else
      var prev := PaintUp(leds, up, color, endIdx, k - 1);
      var pos := up - (k - 1);
      if -1 < pos < endIdx then prev[pos := color] else prev
  }

  /**
   * The loop of `advancePulseDown` after its first `k` rounds: round `w`
   * writes `color` at `down + w` when that index lies in `[lo, count)`.
   */
  function PaintDown(leds: seq<Pixel>, down: int, color: Pixel, lo: nat, count: nat, k: nat): (r: seq<Pixel>)
    requires count <= |leds|
    ensures |r| == |leds|
    decreases k
  {
    if k == 0 then leds
    else
      var prev := PaintDown(leds, down, color, lo, count, k - 1);
      var pos := down + (k - 1);
      if pos < count && pos >= lo then prev[pos := color] else prev
  }

  /** The upward loop lights exactly the in-range indices of the segment `(up - k, up]`. */
  lemma {:induction false} PaintUpAt(leds: seq<Pixel>, up: int, color: Pixel, endIdx: nat, k: nat, i: nat)
    requires endIdx <= |leds| && i < |leds|
    ensures PaintUp(leds, up, color, endIdx, k)[i] ==
      if i < endIdx && up - k < i <= up then color else leds[i]
    decreases k
  {
    if k > 0 {
      PaintUpAt(leds, up, color, endIdx, k - 1, i);
    }
  }

  /** The downward loop lights exactly the in-range indices of the segment `[down, down + k)`. */
  lemma {:induction false} PaintDownAt(leds: seq<Pixel>, down: int, color: Pixel, lo: nat, count: nat, k: nat, i: nat)
    requires count <= |leds| && i < |leds|
    ensures PaintDown(leds, down, color, lo, count, k)[i] ==
      if lo <= i < count && down <= i < down + k then color else leds[i]
    decreases k
  {
    if k > 0 {
      PaintDownAt(leds, down, color, lo, count, k - 1, i);
    }
  }

  /** `activate`: restart at the bottom (and, mirrored, at the top). The buffer is not touched. */
  function Activated(s: Pulse, count: Byte): (r: Pulse)
    ensures r.activated == ACTIVE && r.advanceUp == 0 && r.middle == count / 2
    ensures -128 <= count - 1 < 128 ==> r.advanceDown == count - 1
  {
    s.(advanceUp := 0, advanceDown := I8(count - 1), middle := count / 2, activated := ACTIVE)
  }

  /** The condition of `checkPulseFinshed`: the whole segment has left the animated range. */
  predicate Finished(s: Pulse, count: Byte)
  {
    s.activated != IDLE && s.advanceUp - s.patternWidth > EndIdx(s, count)
  }

  /** The condition of `checkPulseReachedTop`: the head is on the last index of the range. */
  predicate ReachedTop(s: Pulse, count: Byte)
  {
    s.activated != IDLE && s.advanceUp == EndIdx(s, count) - 1
  }

  /** `advancePulseUp`: one step up, then the upward loop. */
  function StepUp(s: Pulse, leds: seq<Pixel>, count: Byte): (r: Snapshot)
    requires Fits(s, leds, count)
    ensures |r.leds| == |leds|
  {
    var up := I8(s.advanceUp + DELTA);
    Snapshot(s.(advanceUp := up), PaintUp(leds, up, s.color, EndIdx(s, count), s.width))
  }

  /** `advancePulseDown`: one step down, then the downward loop (only ever run mirrored). */
  function StepDown(s: Pulse, leds: seq<Pixel>, count: Byte): (r: Snapshot)
    requires count <= |leds|
    ensures |r.leds| == |leds|
  {
    var down := I8(s.advanceDown - DELTA);
    var lo := if s.mirrored then U8(s.middle) else 0;
    Snapshot(s.(advanceDown := down), PaintDown(leds, down, s.color, lo, count, s.width))
  }

  /** `advancePulse`: fade the trail, then the upward (and, mirrored, downward) pass. */
  function Advance(s: Pulse, leds: seq<Pixel>, count: Byte): (r: Snapshot)
    requires Fits(s, leds, count)
    ensures |r.leds| == |leds|
  {
    if s.activated != IDLE then
      var u := StepUp(s, Trailed(leds, count), count);
      if s.mirrored then StepDown(u.s, u.leds, count) else u
    else
      Snapshot(s, leds)
  }

  /** The body of `updateDisplay`'s gate: finished check, reached-top check, advance. */
  function Frame(s: Pulse, leds: seq<Pixel>, count: Byte): (r: Snapshot)
    requires Fits(s, leds, count)
    ensures |r.leds| == |leds|
  {
    var a := if Finished(s, count) then Snapshot(s.(activated := IDLE), Trailed(leds, count)) else Snapshot(s, leds);
    var b := if ReachedTop(a.s, count) then Snapshot(Notify(a.s), Cleared(a.leds, count)) else a;
    Advance(b.s, b.leds, count)
  }

  /** `updateDisplay(leds, count)` called at time `now`. */
  function Update(s: Pulse, leds: seq<Pixel>, count: Byte, now: nat): (r: Snapshot)
    requires Fits(s, leds, count)
    ensures |r.leds| == |leds|
  {
    if Ready(now, s.frameGate, s.frameRate) then Frame(s.(frameGate := now), leds, count)
    else Snapshot(s, leds)
  }

  /** `updateDisplay` called once at each of the times `nows`, in order. */
  function Run(s: Pulse, leds: seq<Pixel>, count: Byte, nows: seq<nat>): (r: Snapshot)
    requires Fits(s, leds, count)
    ensures |r.leds| == |leds|
    decreases |nows|
  {
    if nows == [] then Snapshot(s, leds)
    else
      var n := Update(s, leds, count, nows[0]);
      assert EndIdx(n.s, count) == EndIdx(s, count);
      Run(n.s, n.leds, count, nows[1..])
  }

  // ---------------------------------------------------------------------
  // One frame
  // ---------------------------------------------------------------------

  /** An inactive pulse ignores every call. */
  lemma IdleFrame(s: Pulse, leds: seq<Pixel>, count: Byte)
    requires Fits(s, leds, count) && s.activated == IDLE
    ensures Frame(s, leds, count) == Snapshot(s, leds)
  {
  }

  /** The finishing frame: deactivate, one last fade, and nothing drawn. */
  lemma FinishingFrame(s: Pulse, leds: seq<Pixel>, count: Byte)
    requires Fits(s, leds, count) && Finished(s, count)
    ensures Frame(s, leds, count) == Snapshot(s.(activated := IDLE), Trailed(leds, count))
  {
  }

  /** What the buffer holds under the segments of a frame: the old buffer, cleared on the reached-top frame, then faded. */
  function Background(s: Pulse, leds: seq<Pixel>, count: Byte): (r: seq<Pixel>)
    requires count <= |leds|
    ensures |r| == |leds|
  {
    Trailed(if ReachedTop(s, count) then Cleared(leds, count) else leds, count)
  }

  /**
   * An active frame that does not finish: the callback fires exactly when
   * the head was on the last index; the head moves up by exactly one; the
   * segment `(advanceUp - width, advanceUp]` is lit inside `[0, endIdx)`;
   * mirrored, the downward segment is lit only inside `[middle, count)`;
   * every other pixel just fades.
   */
  lemma ActiveFrame(s: Pulse, leds: seq<Pixel>, count: Byte)
    requires Fits(s, leds, count)
    requires s.activated != IDLE && !Finished(s, count)
    requires s.advanceUp < 127 && s.advanceDown > -128
    ensures var r := Frame(s, leds, count);
      var up := s.advanceUp + 1;
      var down := s.advanceDown - 1;
      var endIdx := EndIdx(s, count);
      var bg := Background(s, leds, count);
      && r.s.activated == s.activated
      && r.s.advanceUp == up
      && r.s.advanceDown == (if s.mirrored then down else s.advanceDown)
      && r.s.callbacks == (if ReachedTop(s, count) then Notify(s).callbacks else s.callbacks)
      && forall i :: 0 <= i < |leds| ==>
          r.leds[i] ==
            if i < endIdx && up - s.width < i <= up then s.color
            else if s.mirrored && U8(s.middle) <= i < count && down <= i < down + s.width then s.color
            else bg[i]
  {
    var b := if ReachedTop(s, count) then Snapshot(Notify(s), Cleared(leds, count)) else Snapshot(s, leds);
    var u := StepUp(b.s, Trailed(b.leds, count), count);
    var r := Frame(s, leds, count);
    forall i | 0 <= i < |leds|
      ensures r.leds[i] ==
            if i < EndIdx(s, count) && s.advanceUp + 1 - s.width < i <= s.advanceUp + 1 then s.color
            else if s.mirrored && U8(s.middle) <= i < count && s.advanceDown - 1 <= i < s.advanceDown - 1 + s.width then s.color
            else Background(s, leds, count)[i]
    {
      PaintUpAt(Trailed(b.leds, count), s.advanceUp + 1, s.color, EndIdx(s, count), s.width, i);
      if s.mirrored {
        PaintDownAt(u.leds, s.advanceDown - 1, s.color, U8(s.middle), count, s.width, i);
      }
    }
  }

  /**
   * The first frame after `activate` on an 8-pixel strip with a 2-pixel
   * segment, not mirrored: indices 0 and 1 are lit and the other six are
   * the faded old buffer.
   */
  lemma FirstFrameExample(s: Pulse, leds: seq<Pixel>)
    requires |leds| == 8 && s.width == 2 && !s.mirrored && s.patternWidth == 2
    ensures var a := Activated(s, 8);
      var r := Frame(a, leds, 8);
      && r.s.advanceUp == 1
      && r.leds[0] == s.color && r.leds[1] == s.color
      && forall i :: 2 <= i < 8 ==> r.leds[i] == Trailed(leds, 8)[i]
  {
    ActiveFrame(Activated(s, 8), leds, 8);
  }

  // ---------------------------------------------------------------------
  // Runs of many calls
  // ---------------------------------------------------------------------

  /**
   * The head cannot wrap: the farthest it gets, one past the finishing
   * point, still fits in an `int8_t`. (A longer strip breaks this: with
   * `count` of 128 or more and no mirroring, `advanceUp` wraps to -128 before
   * the pulse can finish.)
   */
  predicate NoWrap(s: Pulse, count: Byte)
  {
    EndIdx(s, count) + s.patternWidth + 1 <= 127
  }

  /** The head is where the run of frames can take it: never past one beyond the finishing point. */
  predicate Reachable(s: Pulse, count: Byte)
  {
    s.activated != IDLE ==> s.advanceUp <= EndIdx(s, count) + s.patternWidth + 1
  }

  /** The callback invocations still due: one if the head has yet to reach the last index. */
  function Due(s: Pulse, count: Byte): nat
  {
    if s.activated != IDLE && s.hasCallback && s.advanceUp <= EndIdx(s, count) - 1 then 1 else 0
  }

  /** One call keeps the head reachable, and the callbacks fired plus those still due never grow. */
  lemma UpdateKeepsCount(s: Pulse, leds: seq<Pixel>, count: Byte, now: nat)
    requires Fits(s, leds, count) && NoWrap(s, count) && Reachable(s, count)
    ensures var r := Update(s, leds, count, now);
      && EndIdx(r.s, count) == EndIdx(s, count) && r.s.patternWidth == s.patternWidth
      && Reachable(r.s, count)
      && r.s.callbacks + Due(r.s, count) == s.callbacks + Due(s, count)
      && (r.s.activated != IDLE ==> r.s.advanceUp >= s.advanceUp)
      && r.s.frameRate == s.frameRate
      && r.s.frameGate == (if Ready(now, s.frameGate, s.frameRate) then now else s.frameGate)
      && (Ready(now, s.frameGate, s.frameRate) && r.s.activated != IDLE ==> r.s.advanceUp == s.advanceUp + 1)
  {
    if Ready(now, s.frameGate, s.frameRate) {
      var t := s.(frameGate := now);
      if t.activated == IDLE {
        IdleFrame(t, leds, count);
      } else if Finished(t, count) {
        FinishingFrame(t, leds, count);
      } else {
        AdvanceKeepsCount(t, leds, count);
      }
    }
  }

  /** The state half of an active frame that does not finish, for `UpdateKeepsCount`. */
  lemma AdvanceKeepsCount(s: Pulse, leds: seq<Pixel>, count: Byte)
    requires Fits(s, leds, count) && NoWrap(s, count) && Reachable(s, count)
    requires s.activated != IDLE && !Finished(s, count)
    ensures var r := Frame(s, leds, count).s;
      && r.activated == s.activated && r.advanceUp == s.advanceUp + 1
      && EndIdx(r, count) == EndIdx(s, count) && r.patternWidth == s.patternWidth
      && r.hasCallback == s.hasCallback && r.frameGate == s.frameGate && r.frameRate == s.frameRate
      && r.callbacks == (if ReachedTop(s, count) then Notify(s).callbacks else s.callbacks)
  {
    var b := if ReachedTop(s, count) then Notify(s) else s;
    var bl := if ReachedTop(s, count) then Cleared(leds, count) else leds;
    assert Frame(s, leds, count) == Advance(b, bl, count);
    var u := StepUp(b, Trailed(bl, count), count);
    assert u.s == b.(advanceUp := s.advanceUp + 1);
  }

  /**
   * At most one callback per activation: whatever the call times, a run adds
   * exactly the callbacks still due minus those still due at its end, so at
   * most one, and none once the head has passed the last index.
   */
  lemma {:induction false} CallbackAtMostOnce(s: Pulse, leds: seq<Pixel>, count: Byte, nows: seq<nat>)
    requires Fits(s, leds, count) && NoWrap(s, count) && Reachable(s, count)
    ensures var r := Run(s, leds, count, nows);
      s.callbacks <= r.s.callbacks <= s.callbacks + Due(s, count)
    decreases |nows|
  {
    if nows != [] {
      var n := Update(s, leds, count, nows[0]);
      UpdateKeepsCount(s, leds, count, nows[0]);
      CallbackAtMostOnce(n.s, n.leds, count, nows[1..]);
    }
  }

  /**
   * The pulse finishes: driven by calls at least one frame apart, an active
   * pulse is inactive after `endIdx + patternWidth + 2 - advanceUp` calls, and
   * the callback has fired exactly once if the head had yet to reach the
   * last index (from `activate`, exactly once unless the range is empty).
   */
  lemma {:induction false} PulseCompletes(s: Pulse, leds: seq<Pixel>, count: Byte, nows: seq<nat>)
    requires Fits(s, leds, count) && NoWrap(s, count) && Reachable(s, count)
    requires s.activated != IDLE
    requires Spaced(nows, s.frameGate, s.frameRate)
    requires |nows| >= EndIdx(s, count) + s.patternWidth + 2 - s.advanceUp
    ensures var r := Run(s, leds, count, nows);
      r.s.activated == IDLE && r.s.callbacks == s.callbacks + Due(s, count)
    decreases |nows|
  {
    var n := Update(s, leds, count, nows[0]);
    UpdateKeepsCount(s, leds, count, nows[0]);
    if n.s.activated == IDLE {
      IdleRun(n.s, n.leds, count, nows[1..]);
    } else {
      PulseCompletes(n.s, n.leds, count, nows[1..]);
    }
  }

  /** An inactive pulse stays inactive and fires nothing. */
  lemma {:induction false} IdleRun(s: Pulse, leds: seq<Pixel>, count: Byte, nows: seq<nat>)
    requires Fits(s, leds, count) && s.activated == IDLE
    ensures var r := Run(s, leds, count, nows);
      r.s.activated == IDLE && r.s.callbacks == s.callbacks && r.leds == leds
    decreases |nows|
  {
    if nows != [] {
      var n := Update(s, leds, count, nows[0]);
      IdleRun(n.s, n.leds, count, nows[1..]);
    }
  }

  /**
   * One `ezBlasterPulse`. The method bodies follow the C++ member
   * functions; each is proved to compute the function above.
   */
  class PulsePattern {
    var activated: Byte
    var advanceUp: Int8
    var advanceDown: Int8
    var middle: Int8
    var color: Pixel
    var width: Byte
    var patternWidth: Byte
    const mirrored: bool
    const frameRate: Byte
    var frameGate: nat
    const hasCallback: bool
    ghost var callbacks: nat

    ghost function State(): Pulse
      reads this
    {
      Pulse(activated, advanceUp, advanceDown, middle, color, width, patternWidth,
            mirrored, frameRate, frameGate, hasCallback, callbacks)
    }

    /** `ezBlasterPulse(initialColor, eyeWidth, callback, mirroredStrip, frameSpeed)`. */
    constructor (initialColor: Pixel, eyeWidth: Byte, callback: bool, mirroredStrip: bool, frameSpeed: Byte)
      ensures State() == Pulse(IDLE, 0, 0, 0, initialColor, eyeWidth, eyeWidth,
                               mirroredStrip, frameSpeed, 0, callback, 0)
    {
      activated, advanceUp, advanceDown, middle := IDLE, 0, 0, 0;
      color, width, patternWidth := initialColor, eyeWidth, eyeWidth;
      mirrored, frameRate, frameGate := mirroredStrip, frameSpeed, 0;
      hasCallback, callbacks := callback, 0;
    }

    /** `initialize`: a new colour and width; the pattern width is the width. */
    method Initialize(initialColor: Pixel, eyeWidth: Byte)
      modifies this
      ensures State() == old(State()).(color := initialColor, width := eyeWidth, patternWidth := eyeWidth)
    {
      color := initialColor;
      width := eyeWidth;
      patternWidth := width;
    }

    method Activate(count: Byte)
      modifies this
      ensures State() == Activated(old(State()), count)
    {
      advanceUp := 0;
      advanceDown := I8(count - 1);
      middle := count / 2;
      activated := ACTIVE;
    }

    method UpdateDisplay(leds: array<Pixel>, count: Byte, now: nat)
      requires Fits(State(), leds[..], count)
      modifies this, leds
      ensures Snapshot(State(), leds[..]) == Update(old(State()), old(leds[..]), count, now)
    {
      if Ready(now, frameGate, frameRate) {
        frameGate := now;
        var finished := CheckPulseFinished(count);
        if finished {
          FadeToBlack(leds, count);
        }
        CheckPulseReachedTop(leds, count);
        AdvancePulse(leds, count);
      }
    }

    method CheckPulseFinished(count: Byte) returns (finished: bool)
      modifies this
      ensures finished == Finished(old(State()), count)
      ensures State() == if finished then old(State()).(activated := IDLE) else old(State())
    {
      var endIdx: Byte := if mirrored then U8(middle) else count;
      finished := activated != IDLE && advanceUp - patternWidth > endIdx;
      if finished {
        activated := IDLE;
      }
    }

    method CheckPulseReachedTop(leds: array<Pixel>, count: Byte)
      requires count <= leds.Length
      modifies this, leds
      ensures Snapshot(State(), leds[..]) ==
        if ReachedTop(old(State()), count) then Snapshot(Notify(old(State())), Cleared(old(leds[..]), count))
        else Snapshot(old(State()), old(leds[..]))
    {
      var endIdx: Byte := if mirrored then U8(middle) else count;
      if activated != IDLE && advanceUp == endIdx - 1 {
        Clear(leds, count);
        if hasCallback {
          callbacks := callbacks + 1;
        }
      }
    }

    method AdvancePulse(leds: array<Pixel>, count: Byte)
      requires Fits(State(), leds[..], count)
      modifies this, leds
      ensures Snapshot(State(), leds[..]) == Advance(old(State()), old(leds[..]), count)
    {
      if activated != IDLE {
        FadeToBlack(leds, count);
        AdvancePulseUp(leds, count);
        if mirrored {
          AdvancePulseDown(leds, count);
        }
      }
    }

    method AdvancePulseUp(leds: array<Pixel>, count: Byte)
      requires Fits(State(), leds[..], count)
      modifies this, leds
      ensures Snapshot(State(), leds[..]) == StepUp(old(State()), old(leds[..]), count)
    {
      advanceUp := I8(advanceUp + DELTA);
      var endIdx: Byte := if mirrored then U8(middle) else count;
      ghost var before := leds[..];
      var w: Byte := 0;
      while w < width
        modifies leds
        invariant 0 <= w <= width
        invariant leds[..] == PaintUp(before, advanceUp, color, endIdx, w)
      {
        var pos := advanceUp - w;
        if pos > -1 && pos < endIdx {
          leds[pos] := color;
        }
        w := w + 1;
      }
    }

    method AdvancePulseDown(leds: array<Pixel>, count: Byte)
      requires count <= leds.Length
      modifies this, leds
      ensures Snapshot(State(), leds[..]) == StepDown(old(State()), old(leds[..]), count)
    {
      advanceDown := I8(advanceDown - DELTA);
      var endIdx: Byte := if mirrored then U8(middle) else 0;
      ghost var before := leds[..];
      var w: Byte := 0;
      while w < width
        modifies leds
        invariant 0 <= w <= width
        invariant leds[..] == PaintDown(before, advanceDown, color, endIdx, count, w)
      {
        var pos := advanceDown + w;
        if pos < count && pos >= endIdx {
          leds[pos] := color;
        }
        w := w + 1;
      }
    }
  }
}
