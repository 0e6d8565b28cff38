/**
 * The small part of the FastLED library that the blaster patterns rely on:
 * 8-bit channels, the CRGB pixel, `scale8_video`, `fill_solid`,
 * `fadeToBlackBy` and the `EVERY_N_MILLISECONDS` periodic gate.
 *
 * C integer widths are written out: `Byte` is `uint8_t`, `Int8` is `int8_t`,
 * and `U8`/`I8` are the truncating conversions the C code performs when it
 * stores a wider `int` into one of them.
 */
module FastLed {

  type Byte = x: int | 0 <= x < 256
  type Int8 = x: int | -128 <= x < 128

  /** Storing an `int` into a `uint8_t`: reduction modulo 256. */
  function U8(x: int): (r: Byte)
    ensures 0 <= x < 256 ==> r == x
  {
    x % 256
  }

  /** Storing an `int` into an `int8_t`: two's-complement wrap-around. */
  function I8(x: int): (r: Int8)
    ensures -128 <= x < 128 ==> r == x
  {
    (x + 128) % 256 - 128
  }

  /** A CRGB value: three independent 8-bit channels. */
  datatype Pixel = Pixel(r: Byte, g: Byte, b: Byte)

  const Black := Pixel(0, 0, 0)
  const White := Pixel(255, 255, 255)

  /**
   * FastLED's `scale8_video(i, scale)`, taken as its documented formula
   * `((i * scale) >> 8) + ((i && scale) ? 1 : 0)`. It never exceeds `i`
   * and is nonzero whenever both arguments are.
   */
  function Scale8Video(i: Byte, scale: Byte): (r: Byte)
    ensures r <= i
    ensures r == 0 <==> i == 0 || scale == 0
  {
    if i == 0 || scale == 0 then 0
    else
      ScaledBelow(i, scale);
      (i * scale) / 256 + 1
  }

  lemma ScaledBelow(i: Byte, scale: Byte)
    requires i > 0
    ensures (i * scale) / 256 < i
  {
    MulMonotone(scale, 255, i);
  }

  /**
   * One channel of `fadeToBlackBy(leds, n, fadeBy)`: FastLED scales every
   * channel by `255 - fadeBy` with `scale8`, `(c * (1 + scale)) >> 8`.
   * Only two facts about it are used: black stays black, and no channel
   * gets brighter.
   */
  function DimChannel(c: Byte, fadeBy: Byte): (r: Byte)
    ensures r <= c
    ensures c == 0 ==> r == 0
  {
    DimmedBelow(c, fadeBy);
    (c * (256 - fadeBy)) / 256
  }

  lemma DimmedBelow(c: Byte, fadeBy: Byte)
    ensures 0 <= (c * (256 - fadeBy)) / 256 <= c
    ensures c == 0 ==> (c * (256 - fadeBy)) / 256 == 0
  {
    MulMonotone(0, 256 - fadeBy, c);
    MulMonotone(256 - fadeBy, 256, c);
  }

  lemma MulMonotone(a: nat, b: nat, m: nat)
    requires a <= b
    ensures a * m <= b * m
  {
  }

  function Dim(p: Pixel, fadeBy: Byte): (q: Pixel)
    ensures q.r <= p.r && q.g <= p.g && q.b <= p.b
    ensures p == Black ==> q == Black
  {
    Pixel(DimChannel(p.r, fadeBy), DimChannel(p.g, fadeBy), DimChannel(p.b, fadeBy))
  }

  /** The buffer after `fill_solid(leds, count, c)`: the first `count` pixels become `c`. */
  function Filled(leds: seq<Pixel>, count: nat, c: Pixel): (s: seq<Pixel>)
    requires count <= |leds|
    ensures |s| == |leds|
    ensures forall i :: 0 <= i < |s| ==> s[i] == if i < count then c else leds[i]
  {
    seq(count, _ => c) + leds[count..]
  }

  /** The buffer after `fadeToBlackBy(leds, count, fadeBy)`. */
  function Faded(leds: seq<Pixel>, count: nat, fadeBy: Byte): (s: seq<Pixel>)
    requires count <= |leds|
    ensures |s| == |leds|
    ensures forall i :: 0 <= i < |s| ==> s[i] == if i < count then Dim(leds[i], fadeBy) else leds[i]
  {
    seq(|leds|, i requires 0 <= i < |leds| => if i < count then Dim(leds[i], fadeBy) else leds[i])
  }

  /** An all-black prefix of length `count`. */
  predicate DarkPrefix(leds: seq<Pixel>, count: nat)
  {
    count <= |leds| && forall i :: 0 <= i < count ==> leds[i] == Black
  }

  /** `fill_solid`: writes `c` into the first `count` pixels, in place. */
  method FillSolid(leds: array<Pixel>, count: nat, c: Pixel)
    requires count <= leds.Length
    modifies leds
    ensures leds[..] == Filled(old(leds[..]), count, c)
  {
    var i := 0;
    while i < count
      invariant 0 <= i <= count
      invariant forall k :: 0 <= k < leds.Length ==> leds[k] == if k < i then c else old(leds[k])
    {
      leds[i] := c;
      i := i + 1;
    }
  }

  /** `fadeToBlackBy`: dims the first `count` pixels, in place. */
  method FadeToBlackBy(leds: array<Pixel>, count: nat, fadeBy: Byte)
    requires count <= leds.Length
    modifies leds
    ensures leds[..] == Faded(old(leds[..]), count, fadeBy)
  {
    var i := 0;
    while i < count
      invariant 0 <= i <= count
      invariant forall k :: 0 <= k < leds.Length ==> leds[k] == if k < i then Dim(old(leds[k]), fadeBy) else old(leds[k])
    {
      leds[i] := Dim(leds[i], fadeBy);
      i := i + 1;
    }
  }

  /**
   * The `EVERY_N_MILLISECONDS(period)` gate, with the clock made explicit:
   * it fires when at least `period` milliseconds have passed since it last
   * fired, and the caller then records `now` as the new `lastFire`.
   */
  predicate Ready(now: nat, lastFire: nat, period: nat)
  {
    now - lastFire >= period
  }

  /**
   * A sequence of call times each of which finds the gate due: the first
   * at least `period` after `last`, every other at least `period` after
   * the one before.
   */
  predicate Spaced(nows: seq<nat>, last: nat, period: nat)
    decreases |nows|
  {
    nows == [] || (Ready(nows[0], last, period) && Spaced(nows[1..], nows[0], period))
  }
}
