/**
 * `ezBlasterRepeatingPulse`: `repeats` segments of `width` pixels with
 * `space` dark pixels between them, travelling together as one rigid train
 * of `patternWidth = (width + space) * repeats - space` pixels. Behind the
 * train the strip either fades (`fadePulse`) or is cleared every frame.
 *
 * Here `middle` is a `uint8_t`, and each pixel position is computed into an
 * `int8_t` (`I8`) from a `uint8_t` segment start (`U8`): both wrap in the
 * source and both wraps are modelled.
 */
module RepeatingPulse {
  import opened FastLed
  import opened PatternBase

  const IDLE: Byte := 0
  const ACTIVE: Byte := 1

  /** The fields of one `ezBlasterRepeatingPulse`; `callbacks` counts callback invocations. */
  datatype Train = Train(
    activated: Byte,
    advanceUp: Int8,
    advanceDown: Int8,
    middle: Byte,
    color: Pixel,
    width: Byte,
    repeats: Byte,
    space: Byte,
    patternWidth: Byte,
    fadePulse: bool,
    mirrored: bool,
    frameRate: Byte,
    frameGate: nat,
    hasCallback: bool,
    callbacks: nat)

  datatype Snapshot = Snapshot(s: Train, leds: seq<Pixel>)

  /** The fields that decide what the train looks like. */
  datatype Shape = Shape(color: Pixel, width: Byte, repeats: Byte, space: Byte)

  function ShapeOf(s: Train): Shape
  {
    Shape(s.color, s.width, s.repeats, s.space)
  }

  function Notify(s: Train): Train
  {
    if s.hasCallback then s.(callbacks := s.callbacks + 1) else s
  }

  /** `patternWidth` as `initialize` stores it into a `uint8_t`. */
  function PatternWidth(width: Byte, repeats: Byte, space: Byte): (r: Byte)
    ensures repeats > 0 && (width + space) * repeats <= 255 ==> r + space == (width + space) * repeats
  {
    if repeats > 0 then
      MulMonotone(1, repeats, width + space);
      U8((width + space) * repeats - space)
    else
      U8((width + space) * repeats - space)
  }

  function EndIdx(s: Train, count: Byte): Byte
  {
    if s.mirrored then s.middle else count
  }

  predicate Fits(s: Train, leds: seq<Pixel>, count: Byte)
  {
    count <= |leds| && EndIdx(s, count) <= |leds|
  }

  /**
   * One inner loop of `advancePulseUp` after `k` rounds: round `w` writes
   * `c` at the `int8_t` position `base - (off + w)` when it lies in `[0, endIdx)`.
   */
  function RunUp(leds: seq<Pixel>, base: int, c: Pixel, endIdx: nat, off: int, k: nat): (r: seq<Pixel>)
    requires endIdx <= |leds|
    ensures |r| == |leds|
    ensures forall i :: endIdx <= i < |leds| ==> r[i] == leds[i]
    decreases k
  {
    if k == 0 then leds
    else
      var prev := RunUp(leds, base, c, endIdx, off, k - 1);
      var pos := I8(base - (off + (k - 1)));
      if -1 < pos < endIdx then prev[pos := c] else prev
  }

  /** One inner loop of `advancePulseDown`: position `base + (off + w)`, written when in `[lo, count)`. */
  function RunDown(leds: seq<Pixel>, base: int, c: Pixel, lo: nat, count: nat, off: int, k: nat): (r: seq<Pixel>)
    requires count <= |leds|
    ensures |r| == |leds|
    ensures forall i :: 0 <= i < |leds| && !(lo <= i < count) ==> r[i] == leds[i]
    decreases k
  {
    if k == 0 then leds
    else
      var prev := RunDown(leds, base, c, lo, count, off, k - 1);
      var pos := I8(base + (off + (k - 1)));
      if pos < count && pos >= lo then prev[pos := c] else prev
  }

  /**
   * Round `j` of the outer loop of `advancePulseUp`: the segment starting
   * `j * (width + space)` (a `uint8_t`) behind the head is lit and, unless
   * it is the last, the `space` pixels after it are blacked out.
   */
  function RoundUp(leds: seq<Pixel>, s: Shape, up: int, endIdx: nat, j: nat): (t: seq<Pixel>)
    requires endIdx <= |leds|
    ensures |t| == |leds|
    ensures forall i :: endIdx <= i < |leds| ==> t[i] == leds[i]
  {
    var startIdx := U8(j * (s.width + s.space));
    var lit := RunUp(leds, up, s.color, endIdx, startIdx, s.width);
    if j + 1 < s.repeats then RunUp(lit, up, Black, endIdx, startIdx + s.width, s.space) else lit
  }

  /** The outer loop of `advancePulseUp` after `r` rounds. */
  function TrainUp(leds: seq<Pixel>, s: Shape, up: int, endIdx: nat, r: nat): (t: seq<Pixel>)
    requires endIdx <= |leds|
    ensures |t| == |leds|
    ensures forall i :: endIdx <= i < |leds| ==> t[i] == leds[i]
    decreases r
  {
    if r == 0 then leds else RoundUp(TrainUp(leds, s, up, endIdx, r - 1), s, up, endIdx, r - 1)
  }

  /** Round `j` of the outer loop of `advancePulseDown`. */
  function RoundDown(leds: seq<Pixel>, s: Shape, down: int, lo: nat, count: nat, j: nat): (t: seq<Pixel>)
    requires count <= |leds|
    ensures |t| == |leds|
    ensures forall i :: 0 <= i < |leds| && !(lo <= i < count) ==> t[i] == leds[i]
  {
    var startIdx := U8(j * (s.width + s.space));
    var lit := RunDown(leds, down, s.color, lo, count, startIdx, s.width);
    if j + 1 < s.repeats then RunDown(lit, down, Black, lo, count, startIdx + s.width, s.space) else lit
  }

  /** The outer loop of `advancePulseDown` after `r` rounds. */
  function TrainDown(leds: seq<Pixel>, s: Shape, down: int, lo: nat, count: nat, r: nat): (t: seq<Pixel>)
    requires count <= |leds|
    ensures |t| == |leds|
    ensures forall i :: 0 <= i < |leds| && !(lo <= i < count) ==> t[i] == leds[i]
    decreases r
  {
    if r == 0 then leds else RoundDown(TrainDown(leds, s, down, lo, count, r - 1), s, down, lo, count, r - 1)
  }

  // ---------------------------------------------------------------------
  // What the loops write
  // ---------------------------------------------------------------------

  /** Without wrap-around, the upward inner loop writes `c` exactly at offsets `[off, off + k)` behind `base`. */
  lemma {:induction false} RunUpAt(leds: seq<Pixel>, base: int, c: Pixel, endIdx: nat, off: int, k: nat, i: nat)
    requires endIdx <= |leds| && i < |leds|
    requires base <= 127 && off >= 0 && base - off - k >= -129
    ensures RunUp(leds, base, c, endIdx, off, k)[i] ==
      if i < endIdx && off <= base - i < off + k then c else leds[i]
    decreases k
  {
    if k > 0 {
      RunUpAt(leds, base, c, endIdx, off, k - 1, i);
    }
  }

  /** The train fits in an `int8_t` offset range: no segment start or pixel position wraps. */
  predicate TrainFits(s: Shape)
  {
    s.repeats * (s.width + s.space) <= 128
  }

  /** Length of the lit train, gaps included: `(width + space) * repeats - space`. */
  function Span(s: Shape): int
  {
    s.repeats * (s.width + s.space) - s.space
  }

  /**
   * What the train shows at offset `d` behind its head: the segment colour in
   * the first `width` pixels of every `width + space` block, black in the
   * gaps; `old` beyond the train.
   */
  function TrainPixel(s: Shape, d: int, oldPixel: Pixel): Pixel
  {
    if s.width + s.space == 0 || !(0 <= d < Span(s)) then oldPixel
    else if d % (s.width + s.space) < s.width then s.color
    else Black
  }

  lemma ModInBlock(d: int, q: int, m: int)
    requires m > 0 && q >= 0 && q * m <= d < q * m + m
    ensures d % m == d - q * m
  {
    var k := d / m;
    var rem := d % m;
    assert d == k * m + rem && 0 <= rem < m;
    assert k >= 0;
    if k > q {
      NextMultiple(q, m);
      MulMonotone(q + 1, k, m);
      assert false;
    }
    if k < q {
      NextMultiple(k, m);
      MulMonotone(k + 1, q, m);
      assert false;
    }
  }

  /** How far behind the head the first `r` outer rounds have drawn. */
  function Covered(s: Shape, r: nat): int
  {
    if r < s.repeats then r * (s.width + s.space) else Span(s)
  }

  /** Block `j` of a fitting train: its start does not wrap, and it ends inside the train (or at its end). */
  lemma BlockBounds(s: Shape, j: nat)
    requires TrainFits(s) && j < s.repeats
    ensures var m := s.width + s.space;
      && U8(j * m) == j * m
      && j * m + s.width == Covered(s, j + 1) - (if j + 1 < s.repeats then s.space else 0)
      && Covered(s, j + 1) <= Span(s) <= 128
      && Covered(s, j) == j * m
      && (m == 0 ==> Covered(s, j + 1) == 0)
  {
    var m := s.width + s.space;
    NextMultiple(j, m);
    NextMultiple(s.repeats - 1, m);
    MulMonotone(0, j, m);
    MulMonotone(j + 1, s.repeats, m);
    if j + 1 < s.repeats {
      MulMonotone(j + 1, s.repeats - 1, m);
    }
    assert 0 <= j * m && j * m + m <= s.repeats * m <= 128;
  }

  lemma NextMultiple(a: nat, m: nat)
    ensures (a + 1) * m == a * m + m
  {
  }

  /** One outer round extends the drawn part of the train by one block (the last block without its gap). */
  lemma RoundUpAt(prev: seq<Pixel>, s: Shape, up: int, endIdx: nat, j: nat, i: nat, before: Pixel)
    requires endIdx <= |prev| && i < |prev|
    requires TrainFits(s) && 0 <= up <= 127 && j < s.repeats
    requires prev[i] == if i < endIdx && up - i < Covered(s, j) then TrainPixel(s, up - i, before) else before
    ensures RoundUp(prev, s, up, endIdx, j)[i] ==
      if i < endIdx && up - i < Covered(s, j + 1) then TrainPixel(s, up - i, before) else before
  {
    var m := s.width + s.space;
    var d := up - i;
    BlockBounds(s, j);
    var start := j * m;
    var lit := RunUp(prev, up, s.color, endIdx, start, s.width);
    var t := if j + 1 < s.repeats then RunUp(lit, up, Black, endIdx, start + s.width, s.space) else lit;
    assert RoundUp(prev, s, up, endIdx, j) == t;
    RunUpAt(prev, up, s.color, endIdx, start, s.width, i);
    if j + 1 < s.repeats {
      RunUpAt(lit, up, Black, endIdx, start + s.width, s.space, i);
    }
    if i < endIdx && start <= d < Covered(s, j + 1) {
      ModInBlock(d, j, m);
      assert 0 <= d < Span(s) && m != 0;
      if d < start + s.width {
        assert t[i] == s.color == TrainPixel(s, d, before);
      } else {
        assert t[i] == Black == TrainPixel(s, d, before);
      }
    } else if i < endIdx && d < start {
      assert Covered(s, j) == start;
      assert t[i] == prev[i] == TrainPixel(s, d, before);
    } else {
      assert t[i] == prev[i] == before;
    }
  }

  /**
   * After `r` outer rounds (and without wrap-around), every index of
   * `[0, endIdx)` within the first `r` blocks behind the head holds the train
   * pattern, and all other indices are untouched.
   */
  lemma {:induction false} TrainUpAt(leds: seq<Pixel>, s: Shape, up: int, endIdx: nat, r: nat, i: nat)
    requires endIdx <= |leds| && i < |leds|
    requires TrainFits(s) && 0 <= up <= 127 && r <= s.repeats
    ensures TrainUp(leds, s, up, endIdx, r)[i] ==
      if i < endIdx && up - i < Covered(s, r) then TrainPixel(s, up - i, leds[i]) else leds[i]
    decreases r
  {
    if r > 0 {
      TrainUpAt(leds, s, up, endIdx, r - 1, i);
      RoundUpAt(TrainUp(leds, s, up, endIdx, r - 1), s, up, endIdx, r - 1, i, leds[i]);
    } else {
      assert Covered(s, 0) == 0 || s.repeats == 0;
    }
  }

  // ---------------------------------------------------------------------
  // The pattern's operations
  // ---------------------------------------------------------------------

  /** `initialize`: new colour and shape; the pattern width is recomputed (as a `uint8_t`). */
  function Initialized(s: Train, c: Pixel, eyeWidth: Byte, repeating: Byte, spacing: Byte, trailingFade: bool): (r: Train)
    ensures r.patternWidth == PatternWidth(eyeWidth, repeating, spacing)
    ensures r.activated == s.activated && r.advanceUp == s.advanceUp && r.callbacks == s.callbacks
  {
    s.(color := c, width := eyeWidth, repeats := repeating, space := spacing,
       patternWidth := PatternWidth(eyeWidth, repeating, spacing), fadePulse := trailingFade)
  }

  function Activated(s: Train, count: Byte): (r: Train)
    ensures r.activated == ACTIVE && r.advanceUp == 0 && r.middle == count / 2
    ensures -128 <= count - 1 < 128 ==> r.advanceDown == count - 1
  {
    s.(advanceUp := 0, advanceDown := I8(count - 1), middle := count / 2, activated := ACTIVE)
  }

  predicate Finished(s: Train, count: Byte)
  {
    s.activated != IDLE && s.advanceUp - s.patternWidth > EndIdx(s, count)
  }

  predicate ReachedTop(s: Train, count: Byte)
  {
    s.activated != IDLE && s.advanceUp == EndIdx(s, count) - 1
  }

  function StepUp(s: Train, leds: seq<Pixel>, count: Byte): (r: Snapshot)
    requires Fits(s, leds, count)
    ensures |r.leds| == |leds|
  {
    var up := I8(s.advanceUp + DELTA);
    Snapshot(s.(advanceUp := up), TrainUp(leds, ShapeOf(s), up, EndIdx(s, count), s.repeats))
  }

  function StepDown(s: Train, leds: seq<Pixel>, count: Byte): (r: Snapshot)
    requires count <= |leds|
    ensures |r.leds| == |leds|
  {
    var down := I8(s.advanceDown - DELTA);
    var lo := if s.mirrored then s.middle else 0;
    Snapshot(s.(advanceDown := down), TrainDown(leds, ShapeOf(s), down, lo, count, s.repeats))
  }

  /** The buffer before the train is drawn: faded when `fadePulse`, else cleared. */
  function Behind(s: Train, leds: seq<Pixel>, count: Byte): (r: seq<Pixel>)
    requires count <= |leds|
    ensures |r| == |leds|
    ensures !s.fadePulse ==> DarkPrefix(r, count)
  {
    if s.fadePulse then Trailed(leds, count) else Cleared(leds, count)
  }

  function Advance(s: Train, leds: seq<Pixel>, count: Byte): (r: Snapshot)
    requires Fits(s, leds, count)
    ensures |r.leds| == |leds|
  {
    if s.activated != IDLE then
      var u := StepUp(s, Behind(s, leds, count), count);
      if s.mirrored then StepDown(u.s, u.leds, count) else u
    else
      Snapshot(s, leds)
  }

  function Frame(s: Train, leds: seq<Pixel>, count: Byte): (r: Snapshot)
    requires Fits(s, leds, count)
    ensures |r.leds| == |leds|
  {
    var a := if Finished(s, count) then Snapshot(s.(activated := IDLE), Trailed(leds, count)) else Snapshot(s, leds);
    var b := if ReachedTop(a.s, count) then Snapshot(Notify(a.s), Cleared(a.leds, count)) else a;
    Advance(b.s, b.leds, count)
  }

  function Update(s: Train, leds: seq<Pixel>, count: Byte, now: nat): (r: Snapshot)
    requires Fits(s, leds, count)
    ensures |r.leds| == |leds|
  {
    if Ready(now, s.frameGate, s.frameRate) then Frame(s.(frameGate := now), leds, count)
    else Snapshot(s, leds)
  }

  function Run(s: Train, leds: seq<Pixel>, count: Byte, nows: seq<nat>): (r: Snapshot)
    requires Fits(s, leds, count)
    ensures |r.leds| == |leds|
    decreases |nows|
  {
    if nows == [] then Snapshot(s, leds)
    else
      var n := Update(s, leds, count, nows[0]);
      assert EndIdx(n.s, count) == EndIdx(s, count);
      Run(n.s, n.leds, count, nows[1..])
  }

  // ---------------------------------------------------------------------
  // One frame
  // ---------------------------------------------------------------------

  lemma IdleFrame(s: Train, leds: seq<Pixel>, count: Byte)
    requires Fits(s, leds, count) && s.activated == IDLE
    ensures Frame(s, leds, count) == Snapshot(s, leds)
  {
  }

  lemma FinishingFrame(s: Train, leds: seq<Pixel>, count: Byte)
    requires Fits(s, leds, count) && Finished(s, count)
    ensures Frame(s, leds, count) == Snapshot(s.(activated := IDLE), Trailed(leds, count))
  {
  }

  function Background(s: Train, leds: seq<Pixel>, count: Byte): (r: seq<Pixel>)
    requires count <= |leds|
    ensures |r| == |leds|
  {
    Behind(s, if ReachedTop(s, count) then Cleared(leds, count) else leds, count)
  }

  /**
   * An active frame that does not finish (train fitting, head not wrapping):
   * the head moves up by one; inside `[0, endIdx)` every index within the
   * train shows the train pattern (segments lit, gaps black) and every other
   * index shows the faded or cleared buffer; beyond `endIdx` only the mirrored
   * half `[middle, count)` can be written.
   */
  lemma ActiveFrame(s: Train, leds: seq<Pixel>, count: Byte)
    requires Fits(s, leds, count) && TrainFits(ShapeOf(s))
    requires s.activated != IDLE && !Finished(s, count)
    requires -1 <= s.advanceUp < 127
    ensures var r := Frame(s, leds, count);
      var up := s.advanceUp + 1;
      var bg := Background(s, leds, count);
      && r.s.activated == s.activated
      && r.s.advanceUp == up
      && r.s.callbacks == (if ReachedTop(s, count) then Notify(s).callbacks else s.callbacks)
      && (forall i :: 0 <= i < EndIdx(s, count) ==> r.leds[i] == TrainPixel(ShapeOf(s), up - i, bg[i]))
      && (forall i :: EndIdx(s, count) <= i < |leds| && !(s.mirrored && s.middle <= i < count) ==> r.leds[i] == bg[i])
  {
    var b := if ReachedTop(s, count) then Snapshot(Notify(s), Cleared(leds, count)) else Snapshot(s, leds);
    var base := Behind(b.s, b.leds, count);
    var u := StepUp(b.s, base, count);
    var r := Frame(s, leds, count);
    var up := s.advanceUp + 1;
    var lo := if s.mirrored then s.middle else 0;
    forall i | 0 <= i < |leds|
      ensures i < EndIdx(s, count) ==> r.leds[i] == TrainPixel(ShapeOf(s), up - i, base[i])
      ensures EndIdx(s, count) <= i && !(s.mirrored && s.middle <= i < count) ==> r.leds[i] == base[i]
    {
      TrainUpAt(base, ShapeOf(s), up, EndIdx(s, count), s.repeats, i);
    }
  }

  /**
   * The example of a two-segment train (`width` 1, `space` 1, `repeats` 2,
   * hence a pattern width of 3) on a 10-pixel strip without trailing fade:
   * on the frame that moves the head to 4, indices 4 and 2 are lit, index 3
   * is black between them, and everything else is black.
   */
  lemma TwoPulseExample(s: Train, leds: seq<Pixel>)
    requires |leds| == 10 && s.activated == ACTIVE && !s.mirrored && !s.fadePulse
    requires s.width == 1 && s.space == 1 && s.repeats == 2 && s.patternWidth == 3
    requires s.advanceUp == 3
    ensures var c := s.color;
      Frame(s, leds, 10).leds == [Black, Black, c, Black, c, Black, Black, Black, Black, Black]
  {
    var r := Frame(s, leds, 10);
    ActiveFrame(s, leds, 10);
    var c := s.color;
    assert r.leds[2] == c && r.leds[3] == Black && r.leds[4] == c;
    assert r.leds == [Black, Black, c, Black, c, Black, Black, Black, Black, Black];
  }

  // ---------------------------------------------------------------------
  // Runs of many calls
  // ---------------------------------------------------------------------

  /** The head cannot wrap before the pulse finishes. */
  predicate NoWrap(s: Train, count: Byte)
  {
    EndIdx(s, count) + s.patternWidth + 1 <= 127
  }

  predicate Reachable(s: Train, count: Byte)
  {
    s.activated != IDLE ==> s.advanceUp <= EndIdx(s, count) + s.patternWidth + 1
  }

  function Due(s: Train, count: Byte): nat
  {
    if s.activated != IDLE && s.hasCallback && s.advanceUp <= EndIdx(s, count) - 1 then 1 else 0
  }

  lemma UpdateKeepsCount(s: Train, leds: seq<Pixel>, count: Byte, now: nat)
    requires Fits(s, leds, count) && NoWrap(s, count) && Reachable(s, count)
    ensures var r := Update(s, leds, count, now);
      && EndIdx(r.s, count) == EndIdx(s, count) && r.s.patternWidth == s.patternWidth
      && Reachable(r.s, count)
      && r.s.callbacks + Due(r.s, count) == s.callbacks + Due(s, count)
      && (r.s.activated != IDLE ==> r.s.advanceUp >= s.advanceUp)
      && r.s.frameRate == s.frameRate
      && r.s.frameGate == (if Ready(now, s.frameGate, s.frameRate) then now else s.frameGate)
      && (Ready(now, s.frameGate, s.frameRate) && r.s.activated != IDLE ==> r.s.advanceUp == s.advanceUp + 1)
  {
    if Ready(now, s.frameGate, s.frameRate) {
      var t := s.(frameGate := now);
      if t.activated == IDLE {
        IdleFrame(t, leds, count);
      } else if Finished(t, count) {
        FinishingFrame(t, leds, count);
      } else {
        AdvanceKeepsCount(t, leds, count);
      }
    }
  }

  /** The state half of an active frame that does not finish, for `UpdateKeepsCount`. */
  lemma AdvanceKeepsCount(s: Train, leds: seq<Pixel>, count: Byte)
    requires Fits(s, leds, count) && NoWrap(s, count) && Reachable(s, count)
    requires s.activated != IDLE && !Finished(s, count)
    ensures var r := Frame(s, leds, count).s;
      && r.activated == s.activated && r.advanceUp == s.advanceUp + 1
      && EndIdx(r, count) == EndIdx(s, count) && r.patternWidth == s.patternWidth
      && r.hasCallback == s.hasCallback && r.frameGate == s.frameGate && r.frameRate == s.frameRate
      && r.callbacks == (if ReachedTop(s, count) then Notify(s).callbacks else s.callbacks)
  {
    var b := if ReachedTop(s, count) then Notify(s) else s;
    var bl := if ReachedTop(s, count) then Cleared(leds, count) else leds;
    assert Frame(s, leds, count) == Advance(b, bl, count);
    var u := StepUp(b, Behind(b, bl, count), count);
    assert u.s == b.(advanceUp := s.advanceUp + 1);
  }

  /** At most one callback per activation, whatever the call times. */
  lemma {:induction false} CallbackAtMostOnce(s: Train, leds: seq<Pixel>, count: Byte, nows: seq<nat>)
    requires Fits(s, leds, count) && NoWrap(s, count) && Reachable(s, count)
    ensures var r := Run(s, leds, count, nows);
      s.callbacks <= r.s.callbacks <= s.callbacks + Due(s, count)
    decreases |nows|
  {
    if nows != [] {
      var n := Update(s, leds, count, nows[0]);
      UpdateKeepsCount(s, leds, count, nows[0]);
      CallbackAtMostOnce(n.s, n.leds, count, nows[1..]);
    }
  }

  lemma {:induction false} IdleRun(s: Train, leds: seq<Pixel>, count: Byte, nows: seq<nat>)
    requires Fits(s, leds, count) && s.activated == IDLE
    ensures var r := Run(s, leds, count, nows);
      r.s.activated == IDLE && r.s.callbacks == s.callbacks && r.leds == leds
    decreases |nows|
  {
    if nows != [] {
      var n := Update(s, leds, count, nows[0]);
      IdleRun(n.s, n.leds, count, nows[1..]);
    }
  }

  /** The train finishes after `endIdx + patternWidth + 2 - advanceUp` frames, the callback due fired exactly once. */
  lemma {:induction false} TrainCompletes(s: Train, leds: seq<Pixel>, count: Byte, nows: seq<nat>)
    requires Fits(s, leds, count) && NoWrap(s, count) && Reachable(s, count)
    requires s.activated != IDLE
    requires Spaced(nows, s.frameGate, s.frameRate)
    requires |nows| >= EndIdx(s, count) + s.patternWidth + 2 - s.advanceUp
    ensures var r := Run(s, leds, count, nows);
      r.s.activated == IDLE && r.s.callbacks == s.callbacks + Due(s, count)
    decreases |nows|
  {
    var n := Update(s, leds, count, nows[0]);
    UpdateKeepsCount(s, leds, count, nows[0]);
    if n.s.activated == IDLE {
      IdleRun(n.s, n.leds, count, nows[1..]);
    } else {
      TrainCompletes(n.s, n.leds, count, nows[1..]);
    }
  }

  // ---------------------------------------------------------------------
  // The loops, in place
  // ---------------------------------------------------------------------

  /** An inner `for (w = 0; w < k; w++)` loop of `advancePulseUp`. */
  method LightRunUp(leds: array<Pixel>, base: Int8, c: Pixel, endIdx: Byte, off: int, k: Byte)
    requires endIdx <= leds.Length
    modifies leds
    ensures leds[..] == RunUp(old(leds[..]), base, c, endIdx, off, k)
  {
    var w: Byte := 0;
    while w < k
      invariant 0 <= w <= k
      invariant leds[..] == RunUp(old(leds[..]), base, c, endIdx, off, w)
    {
      var pos: Int8 := I8(base - (off + w));
      if pos > -1 && pos < endIdx {
        leds[pos] := c;
      }
      w := w + 1;
    }
  }

  /** An inner `for (w = 0; w < k; w++)` loop of `advancePulseDown`. */
  method LightRunDown(leds: array<Pixel>, base: Int8, c: Pixel, lo: Byte, count: Byte, off: int, k: Byte)
    requires count <= leds.Length
    modifies leds
    ensures leds[..] == RunDown(old(leds[..]), base, c, lo, count, off, k)
  {
    var w: Byte := 0;
    while w < k
      invariant 0 <= w <= k
      invariant leds[..] == RunDown(old(leds[..]), base, c, lo, count, off, w)
    {
      var pos: Int8 := I8(base + (off + w));
      if pos < count && pos >= lo {
        leds[pos] := c;
      }
      w := w + 1;
    }
  }

  /** The body of the outer loop of `advancePulseUp`, round `j`. */
  method DrawRoundUp(leds: array<Pixel>, sh: Shape, up: Int8, endIdx: Byte, j: Byte)
    requires endIdx <= leds.Length
    modifies leds
    ensures leds[..] == RoundUp(old(leds[..]), sh, up, endIdx, j)
  {
    var startIdx := U8(j * (sh.width + sh.space));
    LightRunUp(leds, up, sh.color, endIdx, startIdx, sh.width);
    if j + 1 < sh.repeats {
      LightRunUp(leds, up, Black, endIdx, startIdx + sh.width, sh.space);
    }
  }

  /** The body of the outer loop of `advancePulseDown`, round `j`. */
  method DrawRoundDown(leds: array<Pixel>, sh: Shape, down: Int8, lo: Byte, count: Byte, j: Byte)
    requires count <= leds.Length
    modifies leds
    ensures leds[..] == RoundDown(old(leds[..]), sh, down, lo, count, j)
  {
    var startIdx := U8(j * (sh.width + sh.space));
    LightRunDown(leds, down, sh.color, lo, count, startIdx, sh.width);
    if j + 1 < sh.repeats {
      LightRunDown(leds, down, Black, lo, count, startIdx + sh.width, sh.space);
    }
  }

  /** The outer loop of `advancePulseUp`: `repeats` rounds, in place. */
  method DrawTrainUp(leds: array<Pixel>, sh: Shape, up: Int8, endIdx: Byte)
    requires endIdx <= leds.Length
    modifies leds
    ensures leds[..] == TrainUp(old(leds[..]), sh, up, endIdx, sh.repeats)
  {
    var r: Byte := 0;
    while r < sh.repeats
      invariant 0 <= r <= sh.repeats
      invariant leds[..] == TrainUp(old(leds[..]), sh, up, endIdx, r)
    {
      DrawRoundUp(leds, sh, up, endIdx, r);
      r := r + 1;
    }
  }

  /** The outer loop of `advancePulseDown`: `repeats` rounds, in place. */
  method DrawTrainDown(leds: array<Pixel>, sh: Shape, down: Int8, lo: Byte, count: Byte)
    requires count <= leds.Length
    modifies leds
    ensures leds[..] == TrainDown(old(leds[..]), sh, down, lo, count, sh.repeats)
  {
    var r: Byte := 0;
    while r < sh.repeats
      invariant 0 <= r <= sh.repeats
      invariant leds[..] == TrainDown(old(leds[..]), sh, down, lo, count, r)
    {
      DrawRoundDown(leds, sh, down, lo, count, r);
      r := r + 1;
    }
  }

  /** One `ezBlasterRepeatingPulse`. */
  class TrainPattern {
    var activated: Byte
    var advanceUp: Int8
    var advanceDown: Int8
    var middle: Byte
    var color: Pixel
    var width: Byte
    var repeats: Byte
    var space: Byte
    var patternWidth: Byte
    var fadePulse: bool
    const mirrored: bool
    const frameRate: Byte
    var frameGate: nat
    const hasCallback: bool
    ghost var callbacks: nat

    ghost function State(): Train
      reads this
    {
      Train(activated, advanceUp, advanceDown, middle, color, width, repeats, space, patternWidth,
            fadePulse, mirrored, frameRate, frameGate, hasCallback, callbacks)
    }

    /**
     * `ezBlasterRepeatingPulse(initialColor, eyeWidth, mirroredStrip, callback,
     * repeating, spacing, frameSpeed, trailingFade)`.
     */
    constructor (initialColor: Pixel, eyeWidth: Byte, mirroredStrip: bool, callback: bool,
                 repeating: Byte, spacing: Byte, frameSpeed: Byte, trailingFade: bool)
      ensures State() == Train(IDLE, 0, 0, 0, initialColor, eyeWidth, repeating, spacing,
                               PatternWidth(eyeWidth, repeating, spacing), trailingFade,
                               mirroredStrip, frameSpeed, 0, callback, 0)
    {
      activated, advanceUp, advanceDown, middle := IDLE, 0, 0, 0;
      color, width, repeats, space := initialColor, eyeWidth, repeating, spacing;
      patternWidth := U8((eyeWidth + spacing) * repeating - spacing);
      fadePulse := trailingFade;
      mirrored, frameRate, frameGate := mirroredStrip, frameSpeed, 0;
      hasCallback, callbacks := callback, 0;
    }

    method Initialize(initialColor: Pixel, eyeWidth: Byte, repeating: Byte, spacing: Byte, trailingFade: bool)
      modifies this
      ensures State() == Initialized(old(State()), initialColor, eyeWidth, repeating, spacing, trailingFade)
    {
      color := initialColor;
      width := eyeWidth;
      repeats := repeating;
      space := spacing;
      patternWidth := U8((width + space) * repeats - space);
      fadePulse := trailingFade;
    }

    method Activate(count: Byte)
      modifies this
      ensures State() == Activated(old(State()), count)
    {
      advanceUp := 0;
      advanceDown := I8(count - 1);
      middle := count / 2;
      activated := ACTIVE;
    }

    method UpdateDisplay(leds: array<Pixel>, count: Byte, now: nat)
      requires Fits(State(), leds[..], count)
      modifies this, leds
      ensures Snapshot(State(), leds[..]) == Update(old(State()), old(leds[..]), count, now)
    {
      if Ready(now, frameGate, frameRate) {
        frameGate := now;
        var finished := CheckPulseFinished(count);
        if finished {
          FadeToBlack(leds, count);
        }
        CheckPulseReachedTop(leds, count);
        AdvancePulse(leds, count);
      }
    }

    method CheckPulseFinished(count: Byte) returns (finished: bool)
      modifies this
      ensures finished == Finished(old(State()), count)
      ensures State() == if finished then old(State()).(activated := IDLE) else old(State())
    {
      var endIdx: Byte := if mirrored then middle else count;
      finished := activated != IDLE && advanceUp - patternWidth > endIdx;
      if finished {
        activated := IDLE;
      }
    }

    method CheckPulseReachedTop(leds: array<Pixel>, count: Byte)
      requires count <= leds.Length
      modifies this, leds
      ensures Snapshot(State(), leds[..]) ==
        if ReachedTop(old(State()), count) then Snapshot(Notify(old(State())), Cleared(old(leds[..]), count))
        else Snapshot(old(State()), old(leds[..]))
    {
      var endIdx: Byte := if mirrored then middle else count;
      if activated != IDLE && advanceUp == endIdx - 1 {
        Clear(leds, count);
        if hasCallback {
          callbacks := callbacks + 1;
        }
      }
    }

    method AdvancePulse(leds: array<Pixel>, count: Byte)
      requires Fits(State(), leds[..], count)
      modifies this, leds
      ensures Snapshot(State(), leds[..]) == Advance(old(State()), old(leds[..]), count)
    {
      if activated != IDLE {
        if fadePulse {
          FadeToBlack(leds, count);
        } else {
          Clear(leds, count);
        }
        AdvancePulseUp(leds, count);
        if mirrored {
          AdvancePulseDown(leds, count);
        }
      }
    }

    method AdvancePulseUp(leds: array<Pixel>, count: Byte)
      requires Fits(State(), leds[..], count)
      modifies this, leds
      ensures Snapshot(State(), leds[..]) == StepUp(old(State()), old(leds[..]), count)
    {
      advanceUp := I8(advanceUp + DELTA);
      var endIdx: Byte := if mirrored then middle else count;
      DrawTrainUp(leds, Shape(color, width, repeats, space), advanceUp, endIdx);
    }

    method AdvancePulseDown(leds: array<Pixel>, count: Byte)
      requires count <= leds.Length
      modifies this, leds
      ensures Snapshot(State(), leds[..]) == StepDown(old(State()), old(leds[..]), count)
    {
      advanceDown := I8(advanceDown - DELTA);
      var endIdx: Byte := if mirrored then middle else 0;
      DrawTrainDown(leds, Shape(color, width, repeats, space), advanceDown, endIdx, count);
    }
  }
}
