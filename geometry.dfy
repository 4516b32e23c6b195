/** The fixed world of the simulation: the 800 x 600 screen, the track image whose
    white pixels are the border, Python's int() on coordinates, and the math library
    calls (cos, sin, radians, hypot), which the model leaves uninterpreted. */
module Geometry {

  const Width := 800
  const Height := 600
  const CarSize := 15

  datatype Color = Color(r: int, g: int, b: int, a: int)

  /** Opaque white: a pixel of this colour is part of the track border. */
  const BorderColor := Color(255, 255, 255, 255)

  /** The track image, scaled to the screen: the colour at each pixel coordinate. */
  datatype Track = Track(pixel: (int, int) -> Color)

  type NonNegReal = r: real | 0.0 <= r

  /** The math library as the simulation uses it. Nothing is assumed of cos, sin and
      radians; hypot is only known to be non-negative. */
  datatype Math = Math(
    cos: real -> real,
    sin: real -> real,
    radians: real -> real,
    hypot: (real, real) -> NonNegReal)

  /** A continuous screen position (y grows downwards). */
  datatype Point = Point(x: real, y: real)

  /** An integer pixel coordinate. */
  datatype Pixel = Pixel(x: int, y: int)

  /** Python's int() on a float: truncation toward zero, not floor. */
  function Trunc(r: real): int {
    if r < 0.0 then -((-r).Floor) else r.Floor
  }

  /** Trunc drops the fractional part, moving toward zero. */
  lemma TruncBounds(r: real)
    ensures 0.0 <= r ==> 0 <= Trunc(r) && Trunc(r) as real <= r < Trunc(r) as real + 1.0
    ensures r < 0.0 ==> Trunc(r) <= 0 && Trunc(r) as real - 1.0 < r <= Trunc(r) as real
  {
  }

  function TruncPoint(p: Point): Pixel {
    Pixel(Trunc(p.x), Trunc(p.y))
  }

  predicate InBounds(p: Pixel) {
    0 <= p.x < Width && 0 <= p.y < Height
  }

  predicate IsBorder(track: Track, p: Pixel) {
    track.pixel(p.x, p.y) == BorderColor
  }

  /** The collision test shared by the car and its radar: off the screen, or on a
      border pixel. The pixel is only looked at inside the screen. */
  predicate Impassable(track: Track, p: Pixel) {
    !InBounds(p) || IsBorder(track, p)
  }

  /** The components of the unit vector of a heading in degrees. The heading is turned
      into the trigonometric angle 360 - heading, which flips the y-down screen axis. */
  function DirX(m: Math, heading: int): real {
    m.cos(m.radians((360 - heading) as real))
  }

  function DirY(m: Math, heading: int): real {
    m.sin(m.radians((360 - heading) as real))
  }

  /** int() truncates toward zero: a centre coordinate of -0.5 becomes pixel 0 (floor
      would give -1), so such a centre passes the bounds test. */
  lemma TruncTowardZero()
    ensures Trunc(-0.5) == 0 && (-0.5).Floor == -1
    ensures InBounds(TruncPoint(Point(-0.5, -0.5)))
  {
  }
}
