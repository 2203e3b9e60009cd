/** Rectangles and scalar helpers of the window animations, over exact reals. */
module Geometry {
  import opened Common

  datatype Point = Point(x: real, y: real)

  datatype Rect = Rect(x: real, y: real, width: real, height: real) {
    function Right(): real { x + width }
    function Bottom(): real { y + height }
  }

  /** Finite values only: positive extents are what remains of validity. */
  predicate ValidRect(r: Rect) { r.width > 0.0 && r.height > 0.0 }

  function MakeRect(x: real, y: real, width: real, height: real): Option<Rect> {
    if width > 0.0 && height > 0.0 then Some(Rect(x, y, width, height)) else None
  }

  predicate Contains(outer: Rect, inner: Rect) {
    && inner.x >= outer.x && inner.y >= outer.y
    && inner.Right() <= outer.Right() && inner.Bottom() <= outer.Bottom()
  }

  predicate ContainsPoint(r: Rect, p: Point) {
    r.x <= p.x <= r.Right() && r.y <= p.y <= r.Bottom()
  }

  function Min(a: real, b: real): real { if a <= b then a else b }

  function Max(a: real, b: real): real { if a >= b then a else b }

  function Abs(a: real): real { if a >= 0.0 then a else -a }

  function Clamp(value: real, low: real, high: real): (r: real)
    requires low <= high
    ensures low <= r <= high
    ensures low <= value <= high ==> r == value
  {
    if value < low then low else if value > high then high else value
  }

  function Clamp01(value: real): (r: real)
    ensures 0.0 <= r <= 1.0
    ensures 0.0 <= value <= 1.0 ==> r == value
  {
    Clamp(value, 0.0, 1.0)
  }

  function Lerp(a: real, b: real, t: real): real { a + (b - a) * t }

  lemma ProductSign(a: real, b: real)
    requires a >= 0.0 && b >= 0.0
    ensures a * b >= 0.0
  {
  }

  lemma ProductIn(a: real, t: real)
    requires a >= 0.0 && 0.0 <= t <= 1.0
    ensures 0.0 <= a * t <= a
  {
    ProductSign(a, t);
    ProductSign(a, 1.0 - t);
    assert a * (1.0 - t) == a - a * t;
  }

  /** The part of an extent that a fraction of it covers. */
  function Part(extent: real, t: real): (r: real)
    ensures extent >= 0.0 && 0.0 <= t <= 1.0 ==> 0.0 <= r <= extent
    ensures t == 0.0 ==> r == 0.0
  {
    if extent >= 0.0 && 0.0 <= t <= 1.0 then ProductIn(extent, t); extent * t else extent * t
  }

  /** A blend lies between its ends. */
  lemma LerpBetween(a: real, b: real, t: real)
    requires 0.0 <= t <= 1.0
    ensures Min(a, b) <= Lerp(a, b, t) <= Max(a, b)
  {
    if a <= b { ProductIn(b - a, t); } else { ProductIn(a - b, t); assert (b - a) * t == -((a - b) * t); }
  }

  lemma LerpIn(a: real, b: real, t: real, low: real, high: real)
    requires 0.0 <= t <= 1.0 && low <= a <= high && low <= b <= high
    ensures low <= Lerp(a, b, t) <= high
  {
    LerpBetween(a, b, t);
  }
}
