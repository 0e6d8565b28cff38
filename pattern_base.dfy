/**
 * What every pattern of `ezPattern.h` inherits from the `ezPattern` base
 * class: its constants and the buffer helpers `clear` and `fadeToBlack`.
 * The helpers that also touch the pattern's own fields (`whiteflash`,
 * `completed`) are written inside each pattern.
 */
module PatternBase {
  import opened FastLed

  /** How long the white flash is held, in milliseconds (`flashDuration`). */
  const FLASH_DURATION: nat := 75
  /** Step of `advanceUp`/`advanceDown` per frame (`delta`). */
  const DELTA: int := 1
  /** How fast a trailing pulse fades (`fadeRate`), as the `fadeBy` of `fadeToBlackBy`. */
  const FADE_RATE: Byte := 220

  /** The buffer after `clear(leds, count)`. */
  function Cleared(leds: seq<Pixel>, count: nat): (s: seq<Pixel>)
    requires count <= |leds|
    ensures |s| == |leds| && DarkPrefix(s, count)
    ensures s[count..] == leds[count..]
  {
    Filled(leds, count, Black)
  }

  /** The buffer after `fadeToBlack(leds, count)`. */
  function Trailed(leds: seq<Pixel>, count: nat): (s: seq<Pixel>)
    requires count <= |leds|
    ensures |s| == |leds|
    ensures DarkPrefix(leds, count) ==> DarkPrefix(s, count)
    ensures s[count..] == leds[count..]
  {
    Faded(leds, count, FADE_RATE)
  }

  method Clear(leds: array<Pixel>, count: nat)
    requires count <= leds.Length
    modifies leds
    ensures leds[..] == Cleared(old(leds[..]), count)
  {
    FillSolid(leds, count, Black);
  }

  method FadeToBlack(leds: array<Pixel>, count: nat)
    requires count <= leds.Length
    modifies leds
    ensures leds[..] == Trailed(old(leds[..]), count)
  {
    FadeToBlackBy(leds, count, FADE_RATE);
  }
}
