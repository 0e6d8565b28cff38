/**
 * The colour-approach primitive shared by every blaster pattern:
 * `nblendU8TowardU8` moves one channel toward a target by a fraction
 * `amount / 256` of the remaining distance (rounded up by `scale8_video`),
 * and `fadeTowardColor` applies it to the three channels independently.
 * The C helpers update `cur` by reference; here they return the new value.
 */
module Blend {
  import opened FastLed

  /** Distance between two channel values. */
  function Dist(a: Byte, b: Byte): nat
  {
    if a <= b then b - a else a - b
  }

  /** Sum of the per-channel distances between two colours. */
  function PixelDist(p: Pixel, q: Pixel): nat
  {
    Dist(p.r, q.r) + Dist(p.g, q.g) + Dist(p.b, q.b)
  }

  /** `a` lies between `lo` and `hi`, whichever way round they are. */
  predicate Between(lo: Byte, a: Byte, hi: Byte)
  {
    (lo <= a <= hi) || (hi <= a <= lo)
  }

  /**
   * `nblendU8TowardU8(cur, target, amount)`. A channel already at its target
   * stays; any other channel moves toward the target, never past it, and
   * moves at least one step unless `amount` is zero. The C arithmetic
   * `cur += delta` / `cur -= delta` never wraps, because the step is at most
   * the distance.
   */
  function BlendU8Toward(cur: Byte, target: Byte, amount: Byte): (r: Byte)
    ensures cur == target ==> r == cur
    ensures Between(cur, r, target)
    ensures amount == 0 ==> r == cur
    ensures amount != 0 && cur != target ==> Dist(r, target) < Dist(cur, target)
  {
    if cur == target then cur
    else if cur < target then cur + Scale8Video(target - cur, amount)
    else cur - Scale8Video(cur - target, amount)
  }

  /** `fadeTowardColor(cur, target, amount)`: the three channels blended independently. */
  function FadeTowardColor(cur: Pixel, target: Pixel, amount: Byte): (r: Pixel)
    ensures r.r == BlendU8Toward(cur.r, target.r, amount)
    ensures r.g == BlendU8Toward(cur.g, target.g, amount)
    ensures r.b == BlendU8Toward(cur.b, target.b, amount)
    ensures cur == target ==> r == cur
    ensures amount == 0 ==> r == cur
    ensures amount != 0 && cur != target ==> PixelDist(r, target) < PixelDist(cur, target)
  {
    Pixel(BlendU8Toward(cur.r, target.r, amount),
          BlendU8Toward(cur.g, target.g, amount),
          BlendU8Toward(cur.b, target.b, amount))
  }

  /** `n` successive calls of `fadeTowardColor` with the same target and amount. */
  function FadeRepeat(cur: Pixel, target: Pixel, amount: Byte, n: nat): Pixel
    decreases n
  {
    if n == 0 then cur else FadeRepeat(FadeTowardColor(cur, target, amount), target, amount, n - 1)
  }

  /**
   * Repeated blending with a nonzero amount reaches the target exactly, and
   * within as many calls as the summed channel distance (at most 765).
   */
  lemma {:induction false} FadeConverges(cur: Pixel, target: Pixel, amount: Byte, n: nat)
    requires amount != 0
    requires n >= PixelDist(cur, target)
    ensures FadeRepeat(cur, target, amount, n) == target
    decreases n
  {
    if n == 0 {
      assert cur == target;
    } else if cur == target {
      FadeStaysAtTarget(target, amount, n);
    } else {
      FadeConverges(FadeTowardColor(cur, target, amount), target, amount, n - 1);
    }
  }

  /** Once at the target, repeated blending stays there. */
  lemma {:induction false} FadeStaysAtTarget(target: Pixel, amount: Byte, n: nat)
    ensures FadeRepeat(target, target, amount, n) == target
  {
    if n > 0 {
      FadeStaysAtTarget(target, amount, n - 1);
    }
  }

  /** Every channel stays between its start and the target after any number of calls. */
  lemma {:induction false} FadeRepeatNeverOvershoots(cur: Pixel, target: Pixel, amount: Byte, n: nat)
    ensures var p := FadeRepeat(cur, target, amount, n);
      Between(cur.r, p.r, target.r) && Between(cur.g, p.g, target.g) && Between(cur.b, p.b, target.b)
    decreases n
  {
    if n > 0 {
      var next := FadeTowardColor(cur, target, amount);
      FadeRepeatNeverOvershoots(next, target, amount, n - 1);
      var p := FadeRepeat(cur, target, amount, n);
      assert p == FadeRepeat(next, target, amount, n - 1);
      BetweenNarrows(cur.r, next.r, p.r, target.r);
      BetweenNarrows(cur.g, next.g, p.g, target.g);
      BetweenNarrows(cur.b, next.b, p.b, target.b);
    }
  }

  lemma BetweenNarrows(a: Byte, b: Byte, c: Byte, t: Byte)
    requires Between(a, b, t) && Between(b, c, t)
    ensures Between(a, c, t)
  {
  }
}
