/**
 * Pixel colours of the LED strip, as the animation engine writes them.
 *
 * A colour is the value of `Color(r, g, b)` of the neopixel binding: red in
 * bits 16..23, green in bits 8..15, blue in bits 0..7 (the white byte is
 * never set by the engine). Colours are kept as 32-bit words so that the
 * channel sums of the blur filter have room for their carry bit.
 */
module Pixels {

  /** A packed 24-bit colour. */
  type Pixel = p: bv32 | p < 0x100_0000

  /** The colour that switches a pixel off. */
  const BLACK: Pixel := 0

  /** Channel extraction. */
  function Red(p: bv32): bv32 { (p >> 16) & 0xff }
  function Green(p: bv32): bv32 { (p >> 8) & 0xff }
  function Blue(p: bv32): bv32 { p & 0xff }

  /** `Color(r, g, b)` for 8-bit channels: the three channels come back unchanged. */
  function Color(r: bv8, g: bv8, b: bv8): (p: Pixel)
    ensures Red(p) == r as bv32 && Green(p) == g as bv32 && Blue(p) == b as bv32
  {
    ((r as bv32) << 16) | ((g as bv32) << 8) | (b as bv32)
  }

  /** A colour is determined by its three channels. */
  lemma ChannelsDetermineColor(p: Pixel, q: Pixel)
    requires Red(p) == Red(q) && Green(p) == Green(q) && Blue(p) == Blue(q)
    ensures p == q
  {
  }

  /**
   * The blur filter's neighbour average, exactly as the bitwise expression
   * of tree.py computes it: each channel is masked out, the two masked
   * values are added and shifted right by one, and the result is masked
   * again.
   */
  function MixWord(c0: bv32, c2: bv32): bv32
  {
    ((((c0 & 0xff0000) + (c2 & 0xff0000)) >> 1) & 0xff0000) |
    ((((c0 & 0xff00) + (c2 & 0xff00)) >> 1) & 0xff00) |
    ((((c0 & 0xff) + (c2 & 0xff)) >> 1) & 0xff)
  }

  // On two colours the bitwise expression averages channel by channel; one
  // lemma per channel keeps each bit-vector query small.

  lemma MixRed(c0: bv32, c2: bv32)
    requires c0 < 0x100_0000 && c2 < 0x100_0000
    ensures Red(MixWord(c0, c2)) == (Red(c0) + Red(c2)) / 2
  {
  }

  lemma MixGreen(c0: bv32, c2: bv32)
    requires c0 < 0x100_0000 && c2 < 0x100_0000
    ensures Green(MixWord(c0, c2)) == (Green(c0) + Green(c2)) / 2
  {
  }

  lemma MixBlue(c0: bv32, c2: bv32)
    requires c0 < 0x100_0000 && c2 < 0x100_0000
    ensures Blue(MixWord(c0, c2)) == (Blue(c0) + Blue(c2)) / 2
  {
  }

  /** No carry leaves the red channel: the result is again a 24-bit colour. */
  lemma MixFits(c0: bv32, c2: bv32)
    requires c0 < 0x100_0000 && c2 < 0x100_0000
    ensures MixWord(c0, c2) < 0x100_0000
  {
  }

  /** The blur average of two colours: every channel is the floor of the mean of the two neighbours' channels. */
  function Mix(c0: Pixel, c2: Pixel): (c: Pixel)
    ensures Red(c) == (Red(c0) + Red(c2)) / 2
    ensures Green(c) == (Green(c0) + Green(c2)) / 2
    ensures Blue(c) == (Blue(c0) + Blue(c2)) / 2
  {
    MixRed(c0, c2); MixGreen(c0, c2); MixBlue(c0, c2); MixFits(c0, c2);
    MixWord(c0, c2)
  }

  /** Mixing a colour with itself leaves it unchanged. */
  lemma MixIdempotent(c: Pixel)
    ensures Mix(c, c) == c
  {
    ChannelsDetermineColor(Mix(c, c), c);
  }

  /** The strip `px` after a driver write of `c` at `n`: stored at a position of the strip, ignored elsewhere. */
  function Put(px: seq<Pixel>, n: int, c: Pixel): (r: seq<Pixel>)
    ensures |r| == |px|
  {
    if 0 <= n < |px| then px[n := c] else px
  }

  /**
   * `strip.setPixelColor(n, c)`: the driver stores the colour when `n` is a
   * position of the strip and ignores the write otherwise (it refuses an
   * index at or past the pixel count).
   */
  method SetPixelColor(strip: array<Pixel>, n: int, c: Pixel)
    modifies strip
    ensures strip[..] == if 0 <= n < strip.Length then old(strip[..])[n := c] else old(strip[..])
  {
    if 0 <= n < strip.Length {
      strip[n] := c;
    }
  }
}
