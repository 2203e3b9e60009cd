/**
 The squash effect of src/window_lifecycle_squash.rs: a window shrinks onto its
 anchor by the cube of the progress.
 */
module Squash {
  import opened Common
  import opened Geometry
  import Lamp

  function Deformation(progress: real): (r: real)
    ensures 0.0 <= r <= 1.0
    ensures progress <= 0.0 ==> r == 0.0
    ensures progress >= 1.0 ==> r == 1.0
  {
    var p := Clamp01(progress);
    ProductIn(p, p);
    ProductIn(p * p, p);
    p * p * p
  }

  function LerpRect(source: Rect, target: Rect, amount: real): Rect {
    Rect(Lerp(source.x, target.x, amount), Lerp(source.y, target.y, amount),
         Lerp(source.width, target.width, amount), Lerp(source.height, target.height, amount))
  }

  function ClientRect(source: Rect, anchor: Rect, progress: real): Option<Rect> {
    var r := LerpRect(source, anchor, Deformation(progress));
    MakeRect(r.x, r.y, r.width, r.height)
  }

  function CarriedAt(client: real, extent: real, current: real, extent': real, at: real): real
    requires extent > 0.0
  {
    current + (at - client) * (extent' / extent)
  }

  function CarriedSize(extent: real, extent': real, size: real): real
    requires extent > 0.0
  {
    size * (extent' / extent)
  }

  /** Carries a rectangle along with its client rectangle. */
  function Carried(client: Rect, current: Rect, rect: Rect): Rect
    requires ValidRect(client)
  {
    Rect(CarriedAt(client.x, client.width, current.x, current.width, rect.x),
         CarriedAt(client.y, client.height, current.y, current.height, rect.y),
         CarriedSize(client.width, current.width, rect.width),
         CarriedSize(client.height, current.height, rect.height))
  }

  function TransformRect(client: Rect, current: Rect, rect: Rect): Option<Rect>
    requires ValidRect(client)
  {
    var r := Carried(client, current, rect);
    MakeRect(r.x, r.y, r.width, r.height)
  }

  function VisualRect(client: Rect, anchor: Rect, visual: Rect, progress: real): Option<Rect>
    requires ValidRect(client)
  {
    match ClientRect(client, anchor, progress)
    case None => None
    case Some(current) => TransformRect(client, current, visual)
  }

  function Union(a: Rect, b: Rect): Rect {
    var left, top := Min(a.x, b.x), Min(a.y, b.y);
    Rect(left, top, Max(a.Right(), b.Right()) - left, Max(a.Bottom(), b.Bottom()) - top)
  }

  function TransitionBounds(client: Rect, anchor: Rect, visual: Rect): Option<Rect>
    requires ValidRect(client)
  {
    match TransformRect(client, anchor, visual)
    case None => None
    case Some(target) =>
      var r := Union(visual, target);
      MakeRect(r.x, r.y, r.width, r.height)
  }

  function Opacity(progress: real, canonical: real): real {
    Clamp01(canonical) * (1.0 - Deformation(progress))
  }

  // ----- the transformation is affine in the deformation -----

  lemma ScaleBlends(from: real, to: real, amount: real)
    requires from > 0.0
    ensures Lerp(from, to, amount) / from == 1.0 + (to / from - 1.0) * amount
  {
    var k := to / from;
    assert to == k * from;
    assert Lerp(from, to, amount) == (1.0 + (k - 1.0) * amount) * from by {
      assert (k * from - from) * amount == ((k - 1.0) * amount) * from;
    }
    Quotient(Lerp(from, to, amount), from, 1.0 + (k - 1.0) * amount);
  }

  lemma Quotient(n: real, d: real, q: real)
    requires d != 0.0 && n == q * d
    ensures n / d == q
  {
  }

  lemma PositionBlends(from: real, to: real, offset: real, k: real, amount: real)
    ensures Lerp(from, to, amount) + offset * (1.0 + (k - 1.0) * amount) == Lerp(from + offset, to + offset * k, amount)
  {
    assert offset * ((k - 1.0) * amount) == (offset * k - offset) * amount;
  }

  lemma SizeBlends(size: real, k: real, amount: real)
    ensures size * (1.0 + (k - 1.0) * amount) == Lerp(size, size * k, amount)
  {
    assert size * ((k - 1.0) * amount) == (size * k - size) * amount;
  }

  /** One axis of a carried rectangle. */
  lemma AxisBlends(client: real, extent: real, anchor: real, extent': real, at: real, size: real, amount: real)
    requires extent > 0.0
    ensures CarriedAt(client, extent, Lerp(client, anchor, amount), Lerp(extent, extent', amount), at)
         == Lerp(at, CarriedAt(client, extent, anchor, extent', at), amount)
    ensures CarriedSize(extent, Lerp(extent, extent', amount), size) == Lerp(size, CarriedSize(extent, extent', size), amount)
  {
    var k := extent' / extent;
    ScaleBlends(extent, extent', amount);
    PositionBlends(client, anchor, at - client, k, amount);
    SizeBlends(size, k, amount);
  }

  /** Carrying along a blended client rectangle is blending the carried rectangles. */
  lemma CarriedBlends(client: Rect, anchor: Rect, rect: Rect, amount: real)
    requires ValidRect(client)
    ensures Carried(client, LerpRect(client, anchor, amount), rect) == LerpRect(rect, Carried(client, anchor, rect), amount)
  {
    hide Lerp, CarriedAt, CarriedSize;
    AxisBlends(client.x, client.width, anchor.x, anchor.width, rect.x, rect.width, amount);
    AxisBlends(client.y, client.height, anchor.y, anchor.height, rect.y, rect.height, amount);
  }

  lemma BlendIsValid(a: Rect, b: Rect, amount: real)
    requires ValidRect(a) && ValidRect(b) && 0.0 <= amount <= 1.0
    ensures ValidRect(LerpRect(a, b, amount))
  {
    LerpBetween(a.width, b.width, amount);
    LerpBetween(a.height, b.height, amount);
  }

  lemma SumBlends(a: real, b: real, w: real, v: real, amount: real)
    ensures Lerp(a, b, amount) + Lerp(w, v, amount) == Lerp(a + w, b + v, amount)
  {
    assert (b - a) * amount + (v - w) * amount == (b - a + (v - w)) * amount;
  }

  lemma BlendInUnion(a: Rect, b: Rect, amount: real)
    requires 0.0 <= amount <= 1.0
    ensures Contains(Union(a, b), LerpRect(a, b, amount))
  {
    LerpBetween(a.x, b.x, amount);
    LerpBetween(a.y, b.y, amount);
    SumBlends(a.x, b.x, a.width, b.width, amount);
    SumBlends(a.y, b.y, a.height, b.height, amount);
    LerpBetween(a.Right(), b.Right(), amount);
    LerpBetween(a.Bottom(), b.Bottom(), amount);
    hide Lerp;
  }

  lemma CarriedIsValid(client: Rect, current: Rect, rect: Rect)
    requires ValidRect(client) && ValidRect(current) && ValidRect(rect)
    ensures ValidRect(Carried(client, current, rect))
  {
    PositiveProduct(rect.width, current.width / client.width);
    PositiveProduct(rect.height, current.height / client.height);
  }

  lemma PositiveProduct(a: real, b: real)
    requires a > 0.0 && b > 0.0
    ensures a * b > 0.0
  {
  }

  /**
   At every progress the squashed visual rectangle exists, is the blend of the
   source and target visual rectangles by the cube of the progress, and lies in
   the transition bounds.
   */
  lemma SquashIsAffine(client: Rect, anchor: Rect, visual: Rect, progress: real)
    requires ValidRect(client) && ValidRect(anchor) && ValidRect(visual)
    ensures TransformRect(client, anchor, visual).Some? && TransitionBounds(client, anchor, visual).Some?
    ensures var p := Clamp01(progress);
            VisualRect(client, anchor, visual, progress)
              == Some(LerpRect(visual, TransformRect(client, anchor, visual).value, p * p * p))
    ensures Contains(TransitionBounds(client, anchor, visual).value, VisualRect(client, anchor, visual, progress).value)
  {
    assert Deformation(progress) == Clamp01(progress) * Clamp01(progress) * Clamp01(progress);
    hide Carried, LerpRect, Deformation;
    var amount, target := Deformation(progress), Carried(client, anchor, visual);
    CarriedIsValid(client, anchor, visual);
    BlendIsValid(client, anchor, amount);
    CarriedIsValid(client, LerpRect(client, anchor, amount), visual);
    CarriedBlends(client, anchor, visual, amount);
    BlendInUnion(visual, target, amount);
  }

  /** The run starts at the source visual rectangle and ends at the carried target. */
  lemma SquashEndpoints(client: Rect, anchor: Rect, visual: Rect)
    requires ValidRect(client) && ValidRect(anchor) && ValidRect(visual)
    ensures VisualRect(client, anchor, visual, 0.0) == Some(visual)
    ensures VisualRect(client, anchor, visual, 1.0) == TransformRect(client, anchor, visual)
  {
    SquashIsAffine(client, anchor, visual, 0.0);
    SquashIsAffine(client, anchor, visual, 1.0);
  }

  lemma DeformationRises(p: real, q: real)
    requires p <= q
    ensures Deformation(p) <= Deformation(q)
  {
    Lamp.CubeMonotone(Clamp01(p), Clamp01(q));
  }

  /** The squash never brightens, and ends at nothing. */
  lemma OpacityFades(p: real, q: real, canonical: real)
    requires p <= q
    ensures 0.0 <= Opacity(q, canonical) <= Opacity(p, canonical) <= 1.0
    ensures q >= 1.0 ==> Opacity(q, canonical) == 0.0
  {
    hide Deformation;
    DeformationRises(p, q);
    var c, a, b := Clamp01(canonical), Deformation(p), Deformation(q);
    ProductSign(c, b - a);
    assert c * (b - a) == c * (1.0 - a) - c * (1.0 - b);
    ProductIn(c, 1.0 - a);
    ProductIn(c, 1.0 - b);
  }
}
