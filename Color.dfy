/**
 * `Color::inverse`: a grey whose luma is far from the input's. The opposite luma `255 - y` is
 * pulled back to at most 192 and pushed out to at least 128 away from the input's luma.
 */
module Color {
  import opened PhpMath

  const MaxContrast := 192
  const MinContrast := 128

  datatype Rgb = Rgb(r: int, g: int, b: int)

  /** The luma `round(0.299 r + 0.587 g + 0.114 b)`. */
  function Luma(r: int, g: int, b: int): int {
    Round(0.299 * r as real + 0.587 * g as real + 0.114 * b as real)
  }

  /** The grey level of the inverse of a colour of luma `y`. */
  function InverseLevel(y: int): int {
    var oy := 255 - y;
    var dy := oy - y;
    if Abs(dy) > MaxContrast then y + SignOf(dy) * MaxContrast
    else if Abs(dy) < MinContrast then y + SignOf(dy) * MinContrast
    else oy
  }

  /** `inverse($r, $g, $b)`: a grey, so all three channels are equal. */
  function Inverse(r: int, g: int, b: int): (c: Rgb)
    ensures c.r == c.g == c.b
  {
    var oy := InverseLevel(Luma(r, g, b));
    Rgb(oy, oy, oy)
  }

  /** The inverse's level is between 128 and 192 away from the luma: lighter for a dark colour, darker for a light one. */
  lemma InverseShift(y: int)
    ensures MinContrast <= Abs(InverseLevel(y) - y) <= MaxContrast
    ensures y < 128 ==> InverseLevel(y) > y
    ensures y >= 128 ==> InverseLevel(y) < y
  {
  }

  /** When the plain opposite `255 - y` is already between 128 and 192 away, it is the result. */
  lemma PlainOppositeKept(y: int)
    requires MinContrast <= Abs(255 - 2 * y) <= MaxContrast
    ensures InverseLevel(y) == 255 - y
  {
  }

  lemma InverseLevelInRange(y: int)
    requires 0 <= y <= 255
    ensures 0 <= InverseLevel(y) <= 255
  {
  }

  /** The luma of a colour with channels in [0, 255] is in [0, 255]. */
  lemma LumaInRange(r: int, g: int, b: int)
    requires 0 <= r <= 255 && 0 <= g <= 255 && 0 <= b <= 255
    ensures 0 <= Luma(r, g, b) <= 255
  {
    var x := 0.299 * r as real + 0.587 * g as real + 0.114 * b as real;
    assert 0.0 <= x <= 255.0;
    RoundMonotone(0.0, x);
    RoundMonotone(x, 255.0);
    RoundOfInt(0);
    RoundOfInt(255);
  }

  /** For a colour with channels in [0, 255] every channel of the inverse is in [0, 255]. */
  lemma InverseInRange(r: int, g: int, b: int)
    requires 0 <= r <= 255 && 0 <= g <= 255 && 0 <= b <= 255
    ensures var c := Inverse(r, g, b); 0 <= c.r <= 255 && 0 <= c.g <= 255 && 0 <= c.b <= 255
  {
    LumaInRange(r, g, b);
    InverseLevelInRange(Luma(r, g, b));
  }
}
