/**
 * The colour wheel `wheel(pos)` of tree.py at full brightness: a hue
 * 0..255 is mapped through three linear segments, red rising against green
 * (0..84), red falling against blue (85..169), green rising against blue
 * (170..255).
 */
module ColorWheel {
  import opened Pixels

  datatype Rgb = Rgb(r: int, g: int, b: int)

  predicate IsChannel(c: int) { 0 <= c < 256 }

  predicate InGamut(c: Rgb) { IsChannel(c.r) && IsChannel(c.g) && IsChannel(c.b) }

  /**
   * The three channels of `wheel(pos)`. Every hue gives channels that stay in
   * 0..255 and add up to 255, so every hue has the same total brightness;
   * each segment switches exactly one channel off.
   */
  function WheelRgb(pos: int): (c: Rgb)
    requires 0 <= pos < 256
    ensures InGamut(c) && c.r + c.g + c.b == 255
    ensures pos < 85 ==> c.b == 0
    ensures 85 <= pos < 170 ==> c.g == 0
    ensures 170 <= pos ==> c.r == 0
  {
    if pos < 85 then
      Rgb(pos * 3, 255 - pos * 3, 0)
    else if pos < 170 then
      var p := pos - 85;
      Rgb(255 - p * 3, 0, p * 3)
    else
      var p := pos - 170;
      Rgb(0, p * 3, 255 - p * 3)
  }

  /** `wheel(pos)` packed by `Color`. */
  function Wheel(pos: int): Pixel
    requires 0 <= pos < 256
  {
    var c := WheelRgb(pos);
    Color(c.r as bv8, c.g as bv8, c.b as bv8)
  }

  /**
   * Where on the wheel a colour lies: the inverse of `WheelRgb` on the
   * segment a colour's zero channel identifies.
   */
  function HueOf(c: Rgb): int
  {
    if c.b == 0 then c.r / 3
    else if c.g == 0 then 85 + c.b / 3
    else 170 + c.g / 3
  }

  /**
   * The wheel is a closed loop that visits every other colour once: hues
   * 0..254 are told apart by their colour, and hue 255 comes back to the
   * colour of hue 0.
   */
  lemma {:induction false} WheelInverse(pos: int)
    requires 0 <= pos < 255
    ensures HueOf(WheelRgb(pos)) == pos
  {
  }

  lemma WheelWrapsAround()
    ensures WheelRgb(255) == WheelRgb(0)
  {
  }
}
