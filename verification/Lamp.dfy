/**
 The lamp ("genie") effect of src/window_lifecycle_animation.rs: how a visual
 group is built, how its points are warped, and the region damaged by it.
 */
module Lamp {
  import opened Common
  import opened Geometry

  const INITIAL_SHAPE_FACTOR: real := 0.20
  const MAX_SHAPE_FACTOR: real := 0.80
  const CONTRACTION_END: real := 0.42
  const TRANSLATION_START: real := 0.15
  const TRANSLATION_BLEND: real := 0.25
  const RETREAT_END: real := 0.30
  const STRETCH_POWER: real := 2.0
  const SINK_THICKNESS: real := 1.0
  const RAIL_C1_LOW_SHAPE: real := 0.14
  const RAIL_C2_LOW_SHAPE: real := 0.55
  const RAIL_C1_HIGH_SHAPE: real := 0.04
  const RAIL_C2_HIGH_SHAPE: real := 0.24
  const EPSILON: real := 1.0 / 4503599627370496.0

  datatype Direction = Top | Right | Bottom | Left {
    predicate Vertical() { Top? || Bottom? }
  }

  datatype Effect = LampEffect | SquashEffect

  datatype VisualGroup = VisualGroup(
    canonicalClient: Rect,
    canonicalVisual: Rect,
    sourceClient: Rect,
    sourceVisual: Rect,
    anchor: Rect,
    portal: Rect,
    sink: Rect,
    direction: Direction,
    shapeFactor: real,
    bump: real)

  // ----- building a group -----

  function PresentedVisualRect(client: Rect, visual: Rect, presented: Rect): Option<Rect> {
    if !ValidRect(client) || !ValidRect(visual) || !ValidRect(presented) then None
    else
      var scaleX := presented.width / client.width;
      var scaleY := presented.height / client.height;
      MakeRect(presented.x + (visual.x - client.x) * scaleX, presented.y + (visual.y - client.y) * scaleY,
               visual.width * scaleX, visual.height * scaleY)
  }

  function AxisBounds(r: Rect, direction: Direction): (real, real) {
    if direction.Vertical() then (r.y, r.Bottom()) else (r.x, r.Right())
  }

  function Scale(source: Rect, anchor: Rect): real
    requires ValidRect(source)
  {
    Min(anchor.width / source.width, anchor.height / source.height)
  }

  /** The source scaled to fit the anchor, flush with the anchor's edge that faces it. */
  function PortalRect(source: Rect, anchor: Rect, direction: Direction): Option<Rect> {
    if !ValidRect(source) || !ValidRect(anchor) then None
    else
      var scale := Scale(source, anchor);
      if scale <= 0.0 then None
      else
        var width, height := source.width * scale, source.height * scale;
        var crossX := anchor.x + (anchor.width - width) * 0.5;
        var crossY := anchor.y + (anchor.height - height) * 0.5;
        var corner := match direction
          case Bottom => Point(crossX, anchor.y)
          case Top => Point(crossX, anchor.Bottom() - height)
          case Right => Point(anchor.x, crossY)
          case Left => Point(anchor.Right() - width, crossY);
        var portal := MakeRect(corner.x, corner.y, width, height);
        if portal.Some? && ValidRect(portal.value) && Contains(anchor, portal.value) then portal else None
  }

  /** A thin strip of the portal at the edge where the window arrives. */
  function SinkRect(anchor: Rect, portal: Rect, direction: Direction): Option<Rect> {
    if !ValidRect(anchor) || !ValidRect(portal) || !Contains(anchor, portal) then None
    else
      var (start, end) := AxisBounds(portal, direction);
      var thickness := Min(SINK_THICKNESS, end - start);
      var axisStart := if direction.Bottom? || direction.Right? then start else end - thickness;
      var sink := if direction.Vertical() then MakeRect(portal.x, axisStart, portal.width, thickness)
                  else MakeRect(axisStart, portal.y, thickness, portal.height);
      if sink.Some? && ValidRect(sink.value) && Contains(anchor, sink.value) && Contains(portal, sink.value) then sink else None
  }

  function FallbackDirection(source: Rect, anchor: Rect): Direction {
    var deltaX := (anchor.x + anchor.width * 0.5) - (source.x + source.width * 0.5);
    var deltaY := (anchor.y + anchor.height * 0.5) - (source.y + source.height * 0.5);
    if Abs(deltaY) >= Abs(deltaX) then (if deltaY >= 0.0 then Bottom else Top)
    else if deltaX >= 0.0 then Right else Left
  }

  /** Distance of the anchor from an edge of the output. */
  function EdgeDistance(anchor: Rect, direction: Direction, outputWidth: nat, outputHeight: nat): real {
    match direction
    case Top => Abs(anchor.y)
    case Bottom => Abs(Max(outputHeight as real, 1.0) - anchor.y - anchor.height)
    case Left => Abs(anchor.x)
    case Right => Abs(Max(outputWidth as real, 1.0) - anchor.x - anchor.width)
  }

  function One(condition: bool): nat { if condition then 1 else 0 }

  /** The screen edge nearest to the anchor, unless that is ambiguous or far away. */
  function InferDirection(source: Rect, anchor: Rect, outputWidth: nat, outputHeight: nat): Direction {
    var top := EdgeDistance(anchor, Top, outputWidth, outputHeight);
    var bottom := EdgeDistance(anchor, Bottom, outputWidth, outputHeight);
    var left := EdgeDistance(anchor, Left, outputWidth, outputHeight);
    var right := EdgeDistance(anchor, Right, outputWidth, outputHeight);
    NearestEdge(top, bottom, left, right, Min(Max(outputWidth as real, 1.0), Max(outputHeight as real, 1.0)) * 0.25,
                FallbackDirection(source, anchor))
  }

  function NearestEdge(top: real, bottom: real, left: real, right: real, reach: real, fallback: Direction): Direction {
    var minimum := Min(Min(top, bottom), Min(left, right));
    var ties := One(Abs(top - minimum) <= 1.0) + One(Abs(bottom - minimum) <= 1.0)
              + One(Abs(left - minimum) <= 1.0) + One(Abs(right - minimum) <= 1.0);
    if ties == 1 && minimum <= reach then
      if Abs(top - minimum) <= 1.0 then Top
      else if Abs(bottom - minimum) <= 1.0 then Bottom
      else if Abs(left - minimum) <= 1.0 then Left else Right
    else fallback
  }

  function ShapeFactor(source: Rect, anchor: Rect, direction: Direction): (r: real)
    ensures INITIAL_SHAPE_FACTOR <= r <= MAX_SHAPE_FACTOR
  {
    var extent := Max(if direction.Vertical() then source.height else source.width, 1.0);
    var (sourceStart, sourceEnd) := AxisBounds(source, direction);
    var (anchorStart, anchorEnd) := AxisBounds(anchor, direction);
    var gap := if sourceEnd < anchorStart then anchorStart - sourceEnd
               else if anchorEnd < sourceStart then sourceStart - anchorEnd else 0.0;
    ShapeAt(gap, extent)
  }

  function ShapeAt(gap: real, extent: real): (r: real)
    requires gap >= 0.0 && extent >= 1.0
    ensures INITIAL_SHAPE_FACTOR <= r <= MAX_SHAPE_FACTOR
  {
    GapIsPositive(gap, extent);
    var closeness := 1.0 / (1.0 + gap / extent);
    Clamp(INITIAL_SHAPE_FACTOR + (MAX_SHAPE_FACTOR - INITIAL_SHAPE_FACTOR) * closeness, INITIAL_SHAPE_FACTOR, MAX_SHAPE_FACTOR)
  }

  lemma GapIsPositive(gap: real, extent: real)
    requires gap >= 0.0 && extent >= 1.0
    ensures 1.0 + gap / extent > 0.0
  {
  }

  function BumpDistance(source: Rect, anchor: Rect, direction: Direction): (r: real)
    ensures r >= 0.0
  {
    var (sourceStart, sourceEnd) := AxisBounds(source, direction);
    var (anchorStart, anchorEnd) := AxisBounds(anchor, direction);
    Max(Min(sourceEnd, anchorEnd) - Max(sourceStart, anchorStart), 0.0)
  }

  predicate ValidGroup(g: VisualGroup) {
    && ValidRect(g.canonicalClient) && ValidRect(g.canonicalVisual)
    && ValidRect(g.sourceClient) && ValidRect(g.sourceVisual)
    && ValidRect(g.anchor) && ValidRect(g.portal) && ValidRect(g.sink)
    && Contains(g.anchor, g.portal) && Contains(g.anchor, g.sink)
    && g.shapeFactor >= 0.0 && g.bump >= 0.0
  }

  function FromBounds(client: Rect, visual: Rect, presented: Rect, anchor: Rect, outputWidth: nat,
                      outputHeight: nat): Option<VisualGroup> {
    if !ValidRect(client) || !ValidRect(visual) || !ValidRect(presented) || !ValidRect(anchor) then None
    else match PresentedVisualRect(client, visual, presented)
      case None => None
      case Some(source) =>
        var direction := InferDirection(source, anchor, outputWidth, outputHeight);
        match PortalRect(source, anchor, direction)
        case None => None
        case Some(portal) =>
          match SinkRect(anchor, portal, direction)
          case None => None
          case Some(sink) =>
            Some(VisualGroup(client, visual, presented, source, anchor, portal, sink, direction,
                             ShapeFactor(source, anchor, direction), BumpDistance(source, anchor, direction)))
  }

  function FromSquashBounds(client: Rect, visual: Rect, presented: Rect, anchor: Rect, outputWidth: nat,
                            outputHeight: nat): Option<VisualGroup> {
    if !ValidRect(client) || !ValidRect(visual) || !ValidRect(presented) || !ValidRect(anchor) then None
    else match PresentedVisualRect(client, visual, presented)
      case None => None
      case Some(source) =>
        Some(VisualGroup(client, visual, presented, source, anchor, anchor, anchor,
                         InferDirection(source, anchor, outputWidth, outputHeight), 0.0, 0.0))
  }

  function FromEffectBounds(effect: Effect, client: Rect, visual: Rect, presented: Rect, anchor: Rect,
                            outputWidth: nat, outputHeight: nat): Option<VisualGroup> {
    match effect
    case LampEffect => FromBounds(client, visual, presented, anchor, outputWidth, outputHeight)
    case SquashEffect => FromSquashBounds(client, visual, presented, anchor, outputWidth, outputHeight)
  }

  /** As `FromEffectBounds`, but with the source visual rectangle given by the caller. */
  function WithSourceVisual(effect: Effect, client: Rect, visual: Rect, presented: Rect, source: Rect, anchor: Rect,
                            outputWidth: nat, outputHeight: nat): Option<VisualGroup> {
    if !ValidRect(client) || !ValidRect(visual) || !ValidRect(presented) || !ValidRect(source) || !ValidRect(anchor) then None
    else match FromEffectBounds(effect, client, visual, presented, anchor, outputWidth, outputHeight)
      case None => None
      case Some(group) =>
        var direction := InferDirection(source, anchor, outputWidth, outputHeight);
        var placed := group.(sourceVisual := source, direction := direction);
        match effect
        case SquashEffect => Some(placed)
        case LampEffect =>
          match PortalRect(source, anchor, direction)
          case None => None
          case Some(portal) =>
            match SinkRect(anchor, portal, direction)
            case None => None
            case Some(sink) =>
              Some(placed.(portal := portal, sink := sink,
                           shapeFactor := ShapeFactor(source, anchor, direction),
                           bump := BumpDistance(source, anchor, direction)))
  }

  lemma QuotientIsPositive(a: real, b: real)
    requires a > 0.0 && b > 0.0
    ensures a / b > 0.0 && b * (a / b) == a
  {
  }

  lemma ScaledFits(extent: real, available: real, scale: real)
    requires extent > 0.0 && available > 0.0 && 0.0 < scale <= available / extent
    ensures 0.0 < extent * scale <= available
  {
    QuotientIsPositive(available, extent);
    ProductSign(extent, available / extent - scale);
    assert extent * (available / extent - scale) == available - extent * scale;
  }

  /** In exact arithmetic the containment checks of the portal never fail. */
  lemma PortalExists(source: Rect, anchor: Rect, direction: Direction)
    requires ValidRect(source) && ValidRect(anchor)
    ensures PortalRect(source, anchor, direction).Some?
    ensures var portal := PortalRect(source, anchor, direction).value; ValidRect(portal) && Contains(anchor, portal)
  {
    QuotientIsPositive(anchor.width, source.width);
    QuotientIsPositive(anchor.height, source.height);
    ScaledFits(source.width, anchor.width, Scale(source, anchor));
    ScaledFits(source.height, anchor.height, Scale(source, anchor));
  }

  /** The sink always exists: across the whole portal, at most a pixel thick, at the edge that the window reaches first. */
  lemma SinkExists(anchor: Rect, portal: Rect, direction: Direction)
    requires ValidRect(anchor) && ValidRect(portal) && Contains(anchor, portal)
    ensures SinkRect(anchor, portal, direction).Some?
    ensures var sink := SinkRect(anchor, portal, direction).value;
            && ValidRect(sink) && Contains(portal, sink) && Contains(anchor, sink)
            && CrossBounds(sink, direction) == CrossBounds(portal, direction)
            && sink.width <= portal.width && sink.height <= portal.height
            && match direction
               case Bottom => sink.y == portal.y && (sink.height == 1.0 || sink.height == portal.height < 1.0)
               case Top => sink.Bottom() == portal.Bottom() && (sink.height == 1.0 || sink.height == portal.height < 1.0)
               case Right => sink.x == portal.x && (sink.width == 1.0 || sink.width == portal.width < 1.0)
               case Left => sink.Right() == portal.Right() && (sink.width == 1.0 || sink.width == portal.width < 1.0)
  {
  }

  lemma PresentedExists(client: Rect, visual: Rect, presented: Rect)
    requires ValidRect(client) && ValidRect(visual) && ValidRect(presented)
    ensures PresentedVisualRect(client, visual, presented).Some?
              && ValidRect(PresentedVisualRect(client, visual, presented).value)
  {
    QuotientIsPositive(presented.width, client.width);
    QuotientIsPositive(presented.height, client.height);
  }

  /** Where the visual is relative to the client, and how large, is where and how large it is presented, to scale. */
  lemma PresentedKeepsProportions(client: Rect, visual: Rect, presented: Rect)
    requires ValidRect(client) && ValidRect(visual) && ValidRect(presented)
    ensures PresentedVisualRect(client, visual, presented).Some?
    ensures var r := PresentedVisualRect(client, visual, presented).value;
            && (r.x - presented.x) * client.width == (visual.x - client.x) * presented.width
            && (r.y - presented.y) * client.height == (visual.y - client.y) * presented.height
            && r.width * client.width == visual.width * presented.width
            && r.height * client.height == visual.height * presented.height
  {
    PresentedExists(client, visual, presented);
    ScaleCancels(visual.x - client.x, presented.width, client.width);
    ScaleCancels(visual.y - client.y, presented.height, client.height);
    ScaleCancels(visual.width, presented.width, client.width);
    ScaleCancels(visual.height, presented.height, client.height);
  }

  lemma ScaleCancels(a: real, b: real, c: real)
    requires c > 0.0
    ensures a * (b / c) * c == a * b
  {
    assert (b / c) * c == b;
    assert a * (b / c) * c == a * ((b / c) * c);
  }

  predicate Nested(g: VisualGroup) { Contains(g.anchor, g.portal) && Contains(g.portal, g.sink) }

  /** Valid rectangles always give a group, and every group given is valid with the sink in the portal in the anchor. */
  lemma GroupsAreValid(effect: Effect, client: Rect, visual: Rect, presented: Rect, anchor: Rect, outputWidth: nat,
                       outputHeight: nat)
    ensures var g := FromEffectBounds(effect, client, visual, presented, anchor, outputWidth, outputHeight);
            && (g.Some? <==> ValidRect(client) && ValidRect(visual) && ValidRect(presented) && ValidRect(anchor))
            && (g.Some? ==> ValidGroup(g.value) && Nested(g.value))
  {
    if ValidRect(client) && ValidRect(visual) && ValidRect(presented) && ValidRect(anchor) {
      PresentedExists(client, visual, presented);
      var source := PresentedVisualRect(client, visual, presented).value;
      var direction := InferDirection(source, anchor, outputWidth, outputHeight);
      PortalExists(source, anchor, direction);
      SinkExists(anchor, PortalRect(source, anchor, direction).value, direction);
    }
  }

  lemma PlacedGroupsAreValid(effect: Effect, client: Rect, visual: Rect, presented: Rect, source: Rect, anchor: Rect,
                             outputWidth: nat, outputHeight: nat)
    ensures var g := WithSourceVisual(effect, client, visual, presented, source, anchor, outputWidth, outputHeight);
            && (g.Some? <==>
                  ValidRect(client) && ValidRect(visual) && ValidRect(presented) && ValidRect(source) && ValidRect(anchor))
            && (g.Some? ==> ValidGroup(g.value) && Nested(g.value) && g.value.sourceVisual == source)
  {
    if ValidRect(client) && ValidRect(visual) && ValidRect(presented) && ValidRect(source) && ValidRect(anchor) {
      GroupsAreValid(effect, client, visual, presented, anchor, outputWidth, outputHeight);
      var direction := InferDirection(source, anchor, outputWidth, outputHeight);
      PortalExists(source, anchor, direction);
      SinkExists(anchor, PortalRect(source, anchor, direction).value, direction);
    }
  }

  /**
   The portal keeps the source's aspect ratio, fills the anchor in one
   dimension, and is flush with the facing edge.
   */
  lemma PortalIsLargestFit(source: Rect, anchor: Rect, direction: Direction)
    requires ValidRect(source) && ValidRect(anchor)
    ensures PortalRect(source, anchor, direction).Some?
    ensures var portal := PortalRect(source, anchor, direction).value;
            && source.width * portal.height == source.height * portal.width
            && (portal.width == anchor.width || portal.height == anchor.height)
            && match direction
               case Bottom => portal.y == anchor.y
               case Top => portal.Bottom() == anchor.Bottom()
               case Right => portal.x == anchor.x
               case Left => portal.Right() == anchor.Right()
  {
    PortalExists(source, anchor, direction);
    var scale := Scale(source, anchor);
    QuotientIsPositive(anchor.width, source.width);
    QuotientIsPositive(anchor.height, source.height);
    assert source.width * (source.height * scale) == source.height * (source.width * scale);
  }

  // ----- motion curves -----

  /** A progress value as it arrives: possibly infinite or not a number. */
  datatype Float = Finite(value: real) | NotFinite

  function NormalizedProgress(progress: Float): (r: real)
    ensures 0.0 <= r <= 1.0
  {
    match progress
    case Finite(value) => Clamp01(value)
    case NotFinite => 0.0
  }

  function InOutCubic(value: real): real {
    var v := Clamp01(value);
    if v < 0.5 then 4.0 * Cube(v) else 1.0 - Cube(-2.0 * v + 2.0) * 0.5
  }

  function Smoothstep(value: real): real {
    Hermite(Clamp01(value))
  }

  function SoftStart(temporal: real): (r: real)
    ensures 0.0 <= r <= 1.0
  {
    var normalized := Clamp01((Clamp01(temporal) - TRANSLATION_START) / (1.0 - TRANSLATION_START));
    Clamp01(SoftStartRaw(normalized) / (1.0 - TRANSLATION_BLEND * 0.5))
  }

  /** Quadratic up to the blend width, linear after it. */
  function SoftStartRaw(normalized: real): real {
    if normalized < TRANSLATION_BLEND then normalized * normalized / (2.0 * TRANSLATION_BLEND)
    else normalized - TRANSLATION_BLEND * 0.5
  }

  datatype Channels = Channels(temporal: real, contraction: real, translation: real, retreat: real)

  function MotionChannels(progress: real, bump: real): Channels {
    var p := Clamp01(progress);
    var temporal := InOutCubic(p);
    Channels(temporal, Smoothstep(temporal / CONTRACTION_END), SoftStart(temporal),
             if bump > EPSILON then Smoothstep(p / RETREAT_END) else 0.0)
  }

  function NormalizedShape(shapeFactor: real): (r: real)
    ensures 0.0 <= r <= 1.0
  {
    (Clamp(shapeFactor, INITIAL_SHAPE_FACTOR, MAX_SHAPE_FACTOR) - INITIAL_SHAPE_FACTOR) / (MAX_SHAPE_FACTOR - INITIAL_SHAPE_FACTOR)
  }

  /** Control ordinates of the cubic rail for a shape factor. */
  function Rail(shapeFactor: real): (c: (real, real))
    ensures 0.0 <= c.0 <= c.1 <= 1.0
  {
    var n := NormalizedShape(shapeFactor);
    (RAIL_C1_LOW_SHAPE + n * (RAIL_C1_HIGH_SHAPE - RAIL_C1_LOW_SHAPE), RAIL_C2_LOW_SHAPE + n * (RAIL_C2_HIGH_SHAPE - RAIL_C2_LOW_SHAPE))
  }

  function Bernstein(t: real, c1: real, c2: real): real {
    var u := 1.0 - t;
    3.0 * u * u * t * c1 + 3.0 * u * t * t * c2 + t * t * t
  }

  function FunnelProfile(t: real, shapeFactor: real): (r: real)
    ensures 0.0 <= r <= 1.0
  {
    var (c1, c2) := Rail(shapeFactor);
    Clamp01(Bernstein(Clamp01(t), c1, c2))
  }

  function Cube(t: real): real { t * t * t }

  function Hermite(t: real): real { t * t * (3.0 - 2.0 * t) }

  lemma ProductMonotone(a: real, b: real, c: real, d: real)
    requires 0.0 <= a <= b && 0.0 <= c <= d
    ensures 0.0 <= a * c <= b * d
  {
    ProductSign(a, c);
    ProductSign(b - a, d);
    ProductSign(a, d - c);
    assert b * d - a * c == (b - a) * d + a * (d - c);
  }

  lemma CubeMonotone(s: real, t: real)
    requires 0.0 <= s <= t
    ensures 0.0 <= Cube(s) <= Cube(t)
  {
    ProductMonotone(s, t, s, t);
    ProductMonotone(s * s, t * t, s, t);
  }

  /** On [0, bound] a cube grows at most three bound squared times as fast as its root. */
  lemma CubeLipschitz(s: real, t: real, bound: real)
    requires 0.0 <= s <= t <= bound
    ensures Cube(t) - Cube(s) <= 3.0 * (bound * bound) * (t - s)
  {
    ProductMonotone(t, bound, t, bound);
    ProductMonotone(s, bound, t, bound);
    ProductMonotone(s, bound, s, bound);
    var slope := t * t + s * t + s * s;
    ProductSign(3.0 * (bound * bound) - slope, t - s);
    assert Cube(t) - Cube(s) == slope * (t - s);
    assert (3.0 * (bound * bound) - slope) * (t - s) == 3.0 * (bound * bound) * (t - s) - slope * (t - s);
  }

  lemma HermiteMonotone(s: real, t: real)
    requires 0.0 <= s <= t <= 1.0
    ensures 0.0 <= Hermite(s) <= Hermite(t) <= 1.0
  {
    HermiteRises(0.0, s);
    HermiteRises(s, t);
    HermiteRises(t, 1.0);
    assert Hermite(0.0) == 0.0 && Hermite(1.0) == 1.0;
  }

  lemma HermiteRises(s: real, t: real)
    requires 0.0 <= s <= t <= 1.0
    ensures Hermite(s) <= Hermite(t)
  {
    FactorIsPositive(s, t);
    ProductSign(t - s, 3.0 * (t + s) - 2.0 * (t * t + s * t + s * s));
    HermiteDifference(s, t);
  }

  lemma FactorIsPositive(s: real, t: real)
    requires 0.0 <= s <= t <= 1.0
    ensures 3.0 * (t + s) - 2.0 * (t * t + s * t + s * s) >= 0.0
  {
    var ss, st, tt := s * s, s * t, t * t;
    assert ss <= s by { ProductIn(s, s); }
    assert st <= s by { ProductIn(s, t); }
    assert st <= t by { ProductIn(t, s); }
    assert tt <= t by { ProductIn(t, t); }
  }

  lemma HermiteDifference(s: real, t: real)
    ensures Hermite(t) - Hermite(s) == (t - s) * (3.0 * (t + s) - 2.0 * (t * t + s * t + s * s))
  {
    var ss, st, tt := s * s, s * t, t * t;
    assert (t - s) * (t + s) == tt - ss;
    assert (t - s) * (tt + st + ss) == tt * t - ss * s by {
      assert st * t == s * tt && tt * s == s * tt && ss * t == s * st && st * s == s * st;
    }
  }

  /** The rail as a combination of rising curves. */
  lemma BernsteinDecomposed(t: real, c1: real, c2: real)
    ensures Bernstein(t, c1, c2) == c1 * (1.0 - Cube(1.0 - t)) + (c2 - c1) * Hermite(t) + (1.0 - c2) * Cube(t)
  {
    var u := 1.0 - t;
    var tt, ttt := t * t, t * t * t;
    assert u * u == 1.0 - 2.0 * t + tt;
    assert u * u * t == t - 2.0 * tt + ttt;
    assert u * t * t == tt - ttt;
    assert Cube(u) == 1.0 - 3.0 * t + 3.0 * tt - ttt;
    assert Hermite(t) == 3.0 * tt - 2.0 * ttt;
    var p, q := t - 2.0 * tt + ttt, tt - ttt;
    assert 3.0 * u * u * t * c1 == 3.0 * p * c1 && 3.0 * u * t * t * c2 == 3.0 * q * c2;
  }

  lemma BernsteinMonotone(s: real, t: real, c1: real, c2: real)
    requires 0.0 <= s <= t <= 1.0 && 0.0 <= c1 <= c2 <= 1.0
    ensures Bernstein(s, c1, c2) <= Bernstein(t, c1, c2)
  {
    hide *;
    BernsteinDecomposed(s, c1, c2);
    BernsteinDecomposed(t, c1, c2);
    CubeMonotone(s, t);
    CubeMonotone(1.0 - t, 1.0 - s);
    HermiteMonotone(s, t);
    WeightedSum(Bernstein(s, c1, c2), Bernstein(t, c1, c2), c1, c2,
                1.0 - Cube(1.0 - s), 1.0 - Cube(1.0 - t), Hermite(s), Hermite(t), Cube(s), Cube(t));
  }

  /** Non-negative weights of rising values give a rising sum. */
  lemma WeightedSum(f: real, g: real, c1: real, c2: real, a: real, b: real, h: real, k: real, x: real, y: real)
    requires 0.0 <= c1 <= c2 <= 1.0 && a <= b && h <= k && x <= y
    requires f == c1 * a + (c2 - c1) * h + (1.0 - c2) * x && g == c1 * b + (c2 - c1) * k + (1.0 - c2) * y
    ensures f <= g
  {
    ProductSign(c1, b - a);
    ProductSign(c2 - c1, k - h);
    ProductSign(1.0 - c2, y - x);
    assert g - f == c1 * (b - a) + (c2 - c1) * (k - h) + (1.0 - c2) * (y - x);
  }

  /** The funnel rises from 0 to 1 and its final clamp never acts. */
  lemma FunnelIsMonotone(s: real, t: real, shapeFactor: real)
    requires 0.0 <= s <= t <= 1.0
    ensures var (c1, c2) := Rail(shapeFactor); FunnelProfile(t, shapeFactor) == Bernstein(t, c1, c2)
    ensures FunnelProfile(s, shapeFactor) <= FunnelProfile(t, shapeFactor)
    ensures FunnelProfile(0.0, shapeFactor) == 0.0 && FunnelProfile(1.0, shapeFactor) == 1.0
  {
    var (c1, c2) := Rail(shapeFactor);
    assert Bernstein(0.0, c1, c2) == 0.0 && Bernstein(1.0, c1, c2) == 1.0;
    BernsteinMonotone(0.0, s, c1, c2);
    BernsteinMonotone(s, t, c1, c2);
    BernsteinMonotone(t, 1.0, c1, c2);
  }

  /** The rail goes from its low to its high control ordinates as the shape fills, and never back. */
  lemma RailSpans(f: real, g: real)
    requires f <= g
    ensures Rail(g).0 <= Rail(f).0 && Rail(g).1 <= Rail(f).1
    ensures f <= INITIAL_SHAPE_FACTOR ==> Rail(f) == (RAIL_C1_LOW_SHAPE, RAIL_C2_LOW_SHAPE)
    ensures g >= MAX_SHAPE_FACTOR ==> Rail(g) == (RAIL_C1_HIGH_SHAPE, RAIL_C2_HIGH_SHAPE)
  {
  }

  /** The fuller the shape, the later the rows narrow. */
  lemma FunnelSharpens(t: real, f: real, g: real)
    requires 0.0 <= t <= 1.0 && f <= g
    ensures FunnelProfile(t, g) <= FunnelProfile(t, f)
  {
    hide Rail, Bernstein, FunnelProfile;
    RailSpans(f, g);
    FunnelIsMonotone(t, t, f);
    FunnelIsMonotone(t, t, g);
    BernsteinFalls(t, Rail(f).0, Rail(f).1, Rail(g).0, Rail(g).1);
  }

  lemma BernsteinFalls(t: real, c1: real, c2: real, d1: real, d2: real)
    requires 0.0 <= t <= 1.0 && d1 <= c1 && d2 <= c2
    ensures Bernstein(t, d1, d2) <= Bernstein(t, c1, c2)
  {
    var u := 1.0 - t;
    var a, b := 3.0 * u * u * t, 3.0 * u * t * t;
    ProductSign(u, u);
    ProductSign(u * u, t);
    ProductSign(u, t);
    ProductSign(u * t, t);
    ProductSign(a, c1 - d1);
    ProductSign(b, c2 - d2);
    assert Bernstein(t, c1, c2) - Bernstein(t, d1, d2) == a * (c1 - d1) + b * (c2 - d2);
  }

  /** The temporal curve never grows more than three times as fast as its argument, across both halves. */
  lemma InOutCubicLipschitz(v: real, w: real)
    requires 0.0 <= v <= w <= 1.0
    ensures InOutCubic(w) - InOutCubic(v) <= 3.0 * (w - v)
  {
    assert Cube(0.5) == 0.125 && Cube(1.0) == 1.0;
    if v < 0.5 { CubeLipschitz(v, if w < 0.5 then w else 0.5, 0.5); }
    if w >= 0.5 { CubeLipschitz(-2.0 * w + 2.0, if v < 0.5 then 1.0 else -2.0 * v + 2.0, 1.0); }
  }

  lemma InOutCubicRises(v: real, w: real)
    requires 0.0 <= v <= w <= 1.0
    ensures 0.0 <= InOutCubic(v) <= InOutCubic(w) <= 1.0
  {
    assert Cube(0.0) == 0.0 && Cube(0.5) == 0.125 && Cube(1.0) == 1.0;
    CubeMonotone(0.0, v);
    CubeMonotone(v, w);
    CubeMonotone(-2.0 * w + 2.0, -2.0 * v + 2.0);
    if v < 0.5 { CubeMonotone(v, 0.5); }
    if w < 0.5 { CubeMonotone(w, 0.5); } else { CubeMonotone(0.0, -2.0 * w + 2.0); CubeMonotone(-2.0 * w + 2.0, 1.0); }
    if v >= 0.5 { CubeMonotone(-2.0 * v + 2.0, 1.0); }
  }

  /** The temporal curve rises continuously from 0 to 1, with slope at most 3. */
  lemma InOutCubicMonotone(s: real, t: real)
    requires s <= t
    ensures 0.0 <= InOutCubic(s) <= InOutCubic(t) <= 1.0
    ensures InOutCubic(t) - InOutCubic(s) <= 3.0 * (t - s)
    ensures InOutCubic(0.0) == 0.0 && InOutCubic(1.0) == 1.0
  {
    assert Cube(0.0) == 0.0 && InOutCubic(0.0) == 0.0 && InOutCubic(1.0) == 1.0;
    var v, w := Clamp01(s), Clamp01(t);
    assert InOutCubic(s) == InOutCubic(v) && InOutCubic(t) == InOutCubic(w);
    hide InOutCubic, Cube;
    InOutCubicRises(v, w);
    InOutCubicLipschitz(v, w);
  }

  lemma SoftStartRawMonotone(s: real, t: real)
    requires 0.0 <= s <= t <= 1.0
    ensures 0.0 <= SoftStartRaw(s) <= SoftStartRaw(t) <= 1.0 - TRANSLATION_BLEND * 0.5
    ensures SoftStartRaw(t) - SoftStartRaw(s) <= t - s
  {
    var bend := if t < TRANSLATION_BLEND then t else TRANSLATION_BLEND;
    if s < TRANSLATION_BLEND {
      ProductSign(2.0 * TRANSLATION_BLEND - bend - s, bend - s);
      assert (2.0 * TRANSLATION_BLEND - bend - s) * (bend - s) == 2.0 * TRANSLATION_BLEND * (bend - s) - (bend * bend - s * s);
    }
    ProductMonotone(s, t, s, t);
    if t < TRANSLATION_BLEND { ProductMonotone(t, TRANSLATION_BLEND, t, TRANSLATION_BLEND); }
    if s < TRANSLATION_BLEND { ProductMonotone(s, TRANSLATION_BLEND, s, TRANSLATION_BLEND); }
  }

  /** The translation curve rises continuously from 0 to 1, with bounded slope and its final clamp inactive. */
  lemma SoftStartMonotone(s: real, t: real)
    requires s <= t
    ensures SoftStart(s) <= SoftStart(t)
    ensures (1.0 - TRANSLATION_START) * (1.0 - TRANSLATION_BLEND * 0.5) * (SoftStart(t) - SoftStart(s)) <= t - s
    ensures SoftStart(0.0) == 0.0 && SoftStart(1.0) == 1.0
    ensures SoftStart(t) ==
              SoftStartRaw(Clamp01((Clamp01(t) - TRANSLATION_START) / (1.0 - TRANSLATION_START))) / (1.0 - TRANSLATION_BLEND * 0.5)
  {
    var n := Clamp01((Clamp01(s) - TRANSLATION_START) / (1.0 - TRANSLATION_START));
    var m := Clamp01((Clamp01(t) - TRANSLATION_START) / (1.0 - TRANSLATION_START));
    assert n <= m;
    SoftStartRawMonotone(n, m);
    assert 0.0 <= SoftStartRaw(m) / (1.0 - TRANSLATION_BLEND * 0.5) <= 1.0;
    assert SoftStartRaw(0.0) == 0.0;
  }

  lemma SmoothstepMonotone(s: real, t: real)
    requires s <= t
    ensures 0.0 <= Smoothstep(s) <= Smoothstep(t) <= 1.0
    ensures Smoothstep(0.0) == 0.0 && (t >= 1.0 ==> Smoothstep(t) == 1.0)
  {
    HermiteMonotone(Clamp01(s), Clamp01(t));
    assert Hermite(0.0) == 0.0 && Hermite(1.0) == 1.0;
  }

  // ----- warping a point -----

  /** What is used of powf: it maps [0, 1] into itself for exponents from 1 up, and keeps 0. */
  ghost predicate IsPower(pow: (real, real) -> real) {
    forall base, exponent :: 0.0 <= base <= 1.0 && exponent >= 1.0 ==>
      0.0 <= pow(base, exponent) <= 1.0 && (base == 0.0 ==> pow(base, exponent) == 0.0)
  }

  /** Rows further back start later: the exponent is largest at the trailing edge of a contracted window. */
  function RowExponent(contraction: real, movement: real): real {
    1.0 + STRETCH_POWER * Clamp01(contraction) * (1.0 - Clamp01(movement))
  }

  function RowTranslation(pow: (real, real) -> real, channels: Channels, movement: real): real {
    var translation := Clamp01(channels.translation);
    if translation >= 1.0 then 1.0 else pow(translation, RowExponent(channels.contraction, movement))
  }

  function AxisPosition(r: Rect, direction: Direction, normalized: real): real {
    var n := Clamp01(normalized);
    match direction
    case Top => r.y + Part(r.height, 1.0 - n)
    case Bottom => r.y + Part(r.height, n)
    case Left => r.x + Part(r.width, 1.0 - n)
    case Right => r.x + Part(r.width, n)
  }

  function CrossPosition(r: Rect, direction: Direction, normalized: real): real {
    var n := Clamp01(normalized);
    if direction.Vertical() then r.x + Part(r.width, n) else r.y + Part(r.height, n)
  }

  function MovementExtent(r: Rect, direction: Direction): real {
    Max(if direction.Vertical() then r.height else r.width, 1.0)
  }

  function RetreatDistance(source: Rect, direction: Direction, bump: real, channels: Channels): real {
    Part(Min(Max(bump, 0.0), MovementExtent(source, direction)), Clamp01(channels.retreat))
  }

  function RetreatAxis(axis: real, direction: Direction, distance: real): real {
    if direction.Top? || direction.Left? then axis + distance else axis - distance
  }

  /** Position of a point within the source, 0 to 1 on each axis. */
  function U(source: Rect, point: Point): (r: real)
    requires ValidRect(source)
    ensures 0.0 <= r <= 1.0
  {
    Clamp01((point.x - source.x) / source.width)
  }

  function V(source: Rect, point: Point): (r: real)
    requires ValidRect(source)
    ensures 0.0 <= r <= 1.0
  {
    Clamp01((point.y - source.y) / source.height)
  }

  function Movement(source: Rect, direction: Direction, point: Point): (r: real)
    requires ValidRect(source)
    ensures 0.0 <= r <= 1.0
  {
    match direction
    case Top => 1.0 - V(source, point)
    case Right => U(source, point)
    case Bottom => V(source, point)
    case Left => 1.0 - U(source, point)
  }

  function Crossing(source: Rect, direction: Direction, point: Point): (r: real)
    requires ValidRect(source)
    ensures 0.0 <= r <= 1.0
  {
    if direction.Vertical() then U(source, point) else V(source, point)
  }

  function WarpAxis(pow: (real, real) -> real, source: Rect, target: Rect, direction: Direction, bump: real,
                    channels: Channels, point: Point): real
    requires ValidRect(source)
  {
    var movement := Movement(source, direction, point);
    var from := RetreatAxis(AxisPosition(source, direction, movement), direction, RetreatDistance(source, direction, bump, channels));
    Lerp(from, AxisPosition(target, direction, movement), RowTranslation(pow, channels, movement))
  }

  /** How far a row has narrowed to the target: the funnel first, then the travel of the row. */
  function Completion(pow: (real, real) -> real, source: Rect, direction: Direction, shapeFactor: real,
                      channels: Channels, point: Point): real
    requires ValidRect(source)
  {
    var movement := Movement(source, direction, point);
    var early := Clamp01(Clamp01(channels.contraction) * FunnelProfile(movement, shapeFactor));
    1.0 - (1.0 - early) * (1.0 - RowTranslation(pow, channels, movement))
  }

  function WarpCross(pow: (real, real) -> real, source: Rect, target: Rect, direction: Direction, shapeFactor: real,
                     channels: Channels, point: Point): real
    requires ValidRect(source)
  {
    var crossing := Crossing(source, direction, point);
    Lerp(CrossPosition(source, direction, crossing), CrossPosition(target, direction, crossing),
         Clamp01(Completion(pow, source, direction, shapeFactor, channels, point)))
  }

  function WarpToTarget(pow: (real, real) -> real, source: Rect, target: Rect, direction: Direction, shapeFactor: real,
                        bump: real, channels: Channels, point: Point): Point
  {
    if !ValidRect(source) || !ValidRect(target) then Point(0.0, 0.0)
    else
      var axis := WarpAxis(pow, source, target, direction, bump, channels, point);
      var cross := WarpCross(pow, source, target, direction, shapeFactor, channels, point);
      if direction.Vertical() then Point(cross, axis) else Point(axis, cross)
  }

  function WarpVisualPoint(pow: (real, real) -> real, g: VisualGroup, point: Point, progress: Float): Point {
    var p := NormalizedProgress(progress);
    if !ValidGroup(g) then Point(0.0, 0.0)
    else if p <= 0.0 then point
    else if p >= 1.0 then SinkPoint(g, point)
    else WarpToTarget(pow, g.sourceVisual, g.sink, g.direction, g.shapeFactor, g.bump, MotionChannels(p, g.bump), point)
  }

  function SinkPoint(g: VisualGroup, point: Point): Point
    requires ValidRect(g.sourceVisual)
  {
    Point(g.sink.x + Part(g.sink.width, U(g.sourceVisual, point)), g.sink.y + Part(g.sink.height, V(g.sourceVisual, point)))
  }

  /** The region a lamp transition may damage. */
  function Footprint(g: VisualGroup): Option<Rect> {
    if !ValidGroup(g) then None
    else
      var r := FootprintRect(g);
      MakeRect(r.x, r.y, r.width, r.height)
  }

  function FootprintRect(g: VisualGroup): Rect {
    var left := Min(Min(g.sourceVisual.x, g.canonicalVisual.x), g.anchor.x);
    var top := Min(Min(g.sourceVisual.y, g.canonicalVisual.y), g.anchor.y);
    var right := Max(Max(g.sourceVisual.Right(), g.canonicalVisual.Right()), g.anchor.Right());
    var bottom := Max(Max(g.sourceVisual.Bottom(), g.canonicalVisual.Bottom()), g.anchor.Bottom());
    var bump := Max(g.bump, 0.0);
    var (start, end) := AxisBounds(g.sourceVisual, g.direction);
    if g.direction.Vertical() then
      var top', bottom' := Min(top, start - bump), Max(bottom, end + bump);
      Rect(left, top', right - left, bottom' - top')
    else
      var left', right' := Min(left, start - bump), Max(right, end + bump);
      Rect(left', top, right' - left', bottom - top)
  }

  lemma AxisPositionWithin(r: Rect, direction: Direction, normalized: real)
    requires ValidRect(r)
    ensures AxisBounds(r, direction).0 <= AxisPosition(r, direction, normalized) <= AxisBounds(r, direction).1
  {
    hide Part;
  }

  function CrossBounds(r: Rect, direction: Direction): (real, real) {
    if direction.Vertical() then (r.x, r.Right()) else (r.y, r.Bottom())
  }

  lemma CrossPositionWithin(r: Rect, direction: Direction, normalized: real)
    requires ValidRect(r)
    ensures CrossBounds(r, direction).0 <= CrossPosition(r, direction, normalized) <= CrossBounds(r, direction).1
  {
    hide Part;
  }

  lemma RowTranslationBounds(pow: (real, real) -> real, channels: Channels, movement: real)
    requires IsPower(pow)
    ensures 0.0 <= RowTranslation(pow, channels, movement) <= 1.0
  {
    var c, m := Clamp01(channels.contraction), 1.0 - Clamp01(movement);
    ProductSign(c, m);
    assert STRETCH_POWER * c * m == STRETCH_POWER * (c * m);
  }

  lemma RetreatDistanceBounds(source: Rect, direction: Direction, bump: real, channels: Channels)
    requires bump >= 0.0
    ensures 0.0 <= RetreatDistance(source, direction, bump, channels) <= bump
  {
    hide Part;
  }

  lemma WarpAxisWithin(pow: (real, real) -> real, source: Rect, target: Rect, direction: Direction, bump: real,
                       channels: Channels, point: Point, low: real, high: real)
    requires IsPower(pow) && ValidRect(source) && ValidRect(target) && bump >= 0.0
    requires low <= AxisBounds(source, direction).0 - bump && AxisBounds(source, direction).1 + bump <= high
    requires low <= AxisBounds(target, direction).0 && AxisBounds(target, direction).1 <= high
    ensures low <= WarpAxis(pow, source, target, direction, bump, channels, point) <= high
  {
    hide AxisPosition, RowTranslation, Movement, RetreatDistance, Lerp;
    var movement := Movement(source, direction, point);
    AxisPositionWithin(source, direction, movement);
    AxisPositionWithin(target, direction, movement);
    RowTranslationBounds(pow, channels, movement);
    RetreatDistanceBounds(source, direction, bump, channels);
    var from := RetreatAxis(AxisPosition(source, direction, movement), direction, RetreatDistance(source, direction, bump, channels));
    LerpIn(from, AxisPosition(target, direction, movement), RowTranslation(pow, channels, movement), low, high);
  }

  lemma WarpCrossWithin(pow: (real, real) -> real, source: Rect, target: Rect, direction: Direction, shapeFactor: real,
                        channels: Channels, point: Point, low: real, high: real)
    requires ValidRect(source) && ValidRect(target)
    requires low <= CrossBounds(source, direction).0 && CrossBounds(source, direction).1 <= high
    requires low <= CrossBounds(target, direction).0 && CrossBounds(target, direction).1 <= high
    ensures low <= WarpCross(pow, source, target, direction, shapeFactor, channels, point) <= high
  {
    var crossing := Crossing(source, direction, point);
    CrossPositionWithin(source, direction, crossing);
    CrossPositionWithin(target, direction, crossing);
    var completion := Completion(pow, source, direction, shapeFactor, channels, point);
    LerpIn(CrossPosition(source, direction, crossing), CrossPosition(target, direction, crossing), Clamp01(completion), low, high);
  }

  /** The damage region is conservative: at every progress every point of the source visual rectangle lands in it. */
  lemma WarpStaysInFootprint(pow: (real, real) -> real, g: VisualGroup, point: Point, progress: Float)
    requires IsPower(pow) && ValidGroup(g) && ContainsPoint(g.sourceVisual, point)
    ensures Footprint(g).Some? && ContainsPoint(Footprint(g).value, WarpVisualPoint(pow, g, point, progress))
  {
    hide WarpAxis, WarpCross, FootprintRect, Part, U, V;
    var f, p := FootprintRect(g), NormalizedProgress(progress);
    FootprintCovers(g);
    if 0.0 < p < 1.0 {
      var channels := MotionChannels(p, g.bump);
      var (low, high) := AxisBounds(f, g.direction);
      WarpAxisWithin(pow, g.sourceVisual, g.sink, g.direction, g.bump, channels, point, low, high);
      var (near, far) := CrossBounds(f, g.direction);
      WarpCrossWithin(pow, g.sourceVisual, g.sink, g.direction, g.shapeFactor, channels, point, near, far);
    }
  }

  /**
   Everything a transition may touch: the source with room for the bump along
   the axis, the canonical window and the anchor.
   */
  ghost predicate Touched(r: Rect, g: VisualGroup) {
    && Contains(r, g.sourceVisual) && Contains(r, g.canonicalVisual) && Contains(r, g.anchor)
    && AxisBounds(r, g.direction).0 <= AxisBounds(g.sourceVisual, g.direction).0 - g.bump
    && AxisBounds(g.sourceVisual, g.direction).1 + g.bump <= AxisBounds(r, g.direction).1
  }

  /** The footprint is the smallest such rectangle, and always exists. */
  lemma FootprintCovers(g: VisualGroup)
    requires ValidGroup(g)
    ensures Footprint(g) == Some(FootprintRect(g))
    ensures Touched(FootprintRect(g), g) && Contains(FootprintRect(g), g.sink)
    ensures forall r: Rect :: Touched(r, g) ==> Contains(r, FootprintRect(g))
  {
  }

  /** From construction to damage: whatever group a constructor gives, its warped source stays in its footprint. */
  lemma BuiltGroupsStayInFootprint(pow: (real, real) -> real, effect: Effect, client: Rect, visual: Rect,
                                   presented: Rect, anchor: Rect, outputWidth: nat, outputHeight: nat,
                                   point: Point, progress: Float)
    requires IsPower(pow)
    requires ValidRect(client) && ValidRect(visual) && ValidRect(presented) && ValidRect(anchor)
    ensures var g := FromEffectBounds(effect, client, visual, presented, anchor, outputWidth, outputHeight);
            && g.Some? && Footprint(g.value).Some?
            && (ContainsPoint(g.value.sourceVisual, point) ==>
                  ContainsPoint(Footprint(g.value).value, WarpVisualPoint(pow, g.value, point, progress)))
  {
    GroupsAreValid(effect, client, visual, presented, anchor, outputWidth, outputHeight);
    hide FromEffectBounds, WarpVisualPoint, FootprintRect;
    var g := FromEffectBounds(effect, client, visual, presented, anchor, outputWidth, outputHeight).value;
    FootprintCovers(g);
    if ContainsPoint(g.sourceVisual, point) {
      WarpStaysInFootprint(pow, g, point, progress);
    }
  }

  /** The same with a given source visual rectangle. */
  lemma PlacedGroupsStayInFootprint(pow: (real, real) -> real, effect: Effect, client: Rect, visual: Rect,
                                    presented: Rect, source: Rect, anchor: Rect, outputWidth: nat,
                                    outputHeight: nat, point: Point, progress: Float)
    requires IsPower(pow)
    requires ValidRect(client) && ValidRect(visual) && ValidRect(presented) && ValidRect(source) && ValidRect(anchor)
    ensures var g := WithSourceVisual(effect, client, visual, presented, source, anchor, outputWidth, outputHeight);
            && g.Some? && Footprint(g.value).Some?
            && (ContainsPoint(source, point) ==>
                  ContainsPoint(Footprint(g.value).value, WarpVisualPoint(pow, g.value, point, progress)))
  {
    PlacedGroupsAreValid(effect, client, visual, presented, source, anchor, outputWidth, outputHeight);
    hide WithSourceVisual, WarpVisualPoint, FootprintRect;
    var g := WithSourceVisual(effect, client, visual, presented, source, anchor, outputWidth, outputHeight).value;
    FootprintCovers(g);
    if ContainsPoint(source, point) {
      WarpStaysInFootprint(pow, g, point, progress);
    }
  }

  // ----- the endpoint shortcuts agree with the general formula -----

  lemma ChannelEnds(bump: real)
    ensures var c := MotionChannels(0.0, bump); c.contraction == 0.0 && c.translation == 0.0 && c.retreat == 0.0
    ensures MotionChannels(1.0, bump).translation == 1.0
  {
  }

  /** The position of a point inside the source, read back from its row and column. */
  lemma PositionsRecover(source: Rect, direction: Direction, point: Point)
    requires ValidRect(source) && ContainsPoint(source, point)
    ensures AxisPosition(source, direction, Movement(source, direction, point)) == if direction.Vertical() then point.y else point.x
    ensures CrossPosition(source, direction, Crossing(source, direction, point)) == if direction.Vertical() then point.x else point.y
  {
    ShareRecovers(source.x, source.width, point.x);
    ShareRecovers(source.y, source.height, point.y);
    hide Part, U, V;
  }

  lemma ShareRecovers(start: real, extent: real, at: real)
    requires extent > 0.0 && start <= at <= start + extent
    ensures start + Part(extent, Clamp01((at - start) / extent)) == at
  {
    var q := (at - start) / extent;
    assert q * extent == at - start;
    assert 0.0 <= q <= 1.0;
  }

  /**
   Nothing jumps at the ends: the general formula gives the point itself at
   progress 0 and the sink position at progress 1.
   */
  lemma WarpEndsAgree(pow: (real, real) -> real, g: VisualGroup, point: Point)
    requires IsPower(pow) && ValidGroup(g) && ContainsPoint(g.sourceVisual, point)
    ensures WarpToTarget(pow, g.sourceVisual, g.sink, g.direction, g.shapeFactor, g.bump, MotionChannels(0.0, g.bump), point)
              == point
    ensures WarpToTarget(pow, g.sourceVisual, g.sink, g.direction, g.shapeFactor, g.bump, MotionChannels(1.0, g.bump), point)
              == SinkPoint(g, point)
  {
    ChannelEnds(g.bump);
    WarpAtRest(pow, g, MotionChannels(0.0, g.bump), point);
    WarpAtSink(pow, g, MotionChannels(1.0, g.bump), point);
  }

  lemma WarpAtRest(pow: (real, real) -> real, g: VisualGroup, c: Channels, point: Point)
    requires IsPower(pow) && ValidGroup(g) && ContainsPoint(g.sourceVisual, point)
    requires c.contraction == 0.0 && c.translation == 0.0 && c.retreat == 0.0
    ensures WarpToTarget(pow, g.sourceVisual, g.sink, g.direction, g.shapeFactor, g.bump, c, point) == point
  {
    hide Part, U, V, FunnelProfile, AxisPosition, CrossPosition;
    PositionsRecover(g.sourceVisual, g.direction, point);
    var movement := Movement(g.sourceVisual, g.direction, point);
    assert RowTranslation(pow, c, movement) == 0.0;
    assert RetreatDistance(g.sourceVisual, g.direction, g.bump, c) == 0.0;
  }

  lemma WarpAtSink(pow: (real, real) -> real, g: VisualGroup, c: Channels, point: Point)
    requires ValidGroup(g) && c.translation == 1.0
    ensures WarpToTarget(pow, g.sourceVisual, g.sink, g.direction, g.shapeFactor, g.bump, c, point) == SinkPoint(g, point)
  {
    hide Part, U, V, FunnelProfile;
    var movement := Movement(g.sourceVisual, g.direction, point);
    assert RowTranslation(pow, c, movement) == 1.0;
    assert Completion(pow, g.sourceVisual, g.direction, g.shapeFactor, c, point) == 1.0;
  }

  // ----- fading -----

  const OPACITY_START: real := 0.98

  /** Opaque until the last part of the way, then a smooth fade. */
  function Opacity(progress: Float): real {
    var p := NormalizedProgress(progress);
    if p <= OPACITY_START then 1.0
    else if p >= 1.0 then 0.0
    else Clamp01(1.0 - Hermite((p - OPACITY_START) / (1.0 - OPACITY_START)))
  }

  /** The fade never brightens, and ends at nothing. */
  lemma OpacityFades(p: real, q: real)
    requires p <= q
    ensures 0.0 <= Opacity(Finite(q)) <= Opacity(Finite(p)) <= 1.0
    ensures q >= 1.0 ==> Opacity(Finite(q)) == 0.0
  {
    var a, b := Clamp01(p), Clamp01(q);
    if OPACITY_START < a && b < 1.0 {
      HermiteMonotone((a - OPACITY_START) / (1.0 - OPACITY_START), (b - OPACITY_START) / (1.0 - OPACITY_START));
    }
  }

  // ----- shape and bump -----

  /** How far apart the two rectangles are along the axis; nothing when they overlap there. */
  function Gap(source: Rect, anchor: Rect, direction: Direction): (gap: real)
    ensures gap >= 0.0
  {
    var (sourceStart, sourceEnd) := AxisBounds(source, direction);
    var (anchorStart, anchorEnd) := AxisBounds(anchor, direction);
    Max(Max(anchorStart - sourceEnd, sourceStart - anchorEnd), 0.0)
  }

  /**
   The shape is fullest for a window that touches its anchor and flattens with
   the distance: by half of its range where that is as long as the window.
   */
  lemma ShapeFlattens(source: Rect, anchor: Rect, direction: Direction)
    requires ValidRect(source) && ValidRect(anchor)
    ensures (ShapeFactor(source, anchor, direction) - INITIAL_SHAPE_FACTOR)
              * (MovementExtent(source, direction) + Gap(source, anchor, direction))
              == (MAX_SHAPE_FACTOR - INITIAL_SHAPE_FACTOR) * MovementExtent(source, direction)
  {
    hide *;
    ShapeDependsOnGap(source, anchor, direction);
    ShapeIs(Gap(source, anchor, direction), MovementExtent(source, direction));
  }

  lemma ShapeDependsOnGap(source: Rect, anchor: Rect, direction: Direction)
    requires ValidRect(source) && ValidRect(anchor)
    ensures MovementExtent(source, direction) >= 1.0
    ensures ShapeFactor(source, anchor, direction) == ShapeAt(Gap(source, anchor, direction), MovementExtent(source, direction))
  {
    hide ShapeAt;
  }

  lemma ShapeIs(gap: real, extent: real)
    requires gap >= 0.0 && extent >= 1.0
    ensures (ShapeAt(gap, extent) - INITIAL_SHAPE_FACTOR) * (extent + gap) == (MAX_SHAPE_FACTOR - INITIAL_SHAPE_FACTOR) * extent
  {
    Closeness(gap, extent);
    var closeness := 1.0 / (1.0 + gap / extent);
    assert ShapeAt(gap, extent) - INITIAL_SHAPE_FACTOR == 0.6 * closeness;
    hide ShapeAt;
    assert 0.6 * closeness * (extent + gap) == 0.6 * (closeness * (extent + gap));
  }

  lemma Closeness(gap: real, extent: real)
    requires gap >= 0.0 && extent >= 1.0
    ensures 1.0 + gap / extent > 0.0 && 1.0 / (1.0 + gap / extent) * (extent + gap) == extent
    ensures 0.0 <= 1.0 / (1.0 + gap / extent) <= 1.0
  {
    var q := gap / extent;
    assert q * extent == gap && q >= 0.0;
    Inverts(q, extent);
    assert extent * (1.0 + q) == extent + gap;
  }

  lemma Inverts(q: real, extent: real)
    requires q >= 0.0
    ensures 1.0 / (1.0 + q) * (extent * (1.0 + q)) == extent && 0.0 <= 1.0 / (1.0 + q) <= 1.0
  {
    var c := 1.0 / (1.0 + q);
    assert c * (1.0 + q) == 1.0;
    assert c * (extent * (1.0 + q)) == extent * (c * (1.0 + q));
  }

  /** The bump is the longest stretch of the axis that the two rectangles share. */
  lemma BumpIsOverlap(source: Rect, anchor: Rect, direction: Direction, low: real, high: real)
    requires low <= high && AxisBounds(source, direction).0 <= low && high <= AxisBounds(source, direction).1
    requires AxisBounds(anchor, direction).0 <= low && high <= AxisBounds(anchor, direction).1
    ensures high - low <= BumpDistance(source, anchor, direction)
    ensures low == Max(AxisBounds(source, direction).0, AxisBounds(anchor, direction).0)
            && high == Min(AxisBounds(source, direction).1, AxisBounds(anchor, direction).1) ==>
              high - low == BumpDistance(source, anchor, direction)
  {
  }

  /** Rectangles that are apart along the axis have no bump. */
  lemma NoOverlapNoBump(source: Rect, anchor: Rect, direction: Direction)
    requires Gap(source, anchor, direction) > 0.0
    ensures BumpDistance(source, anchor, direction) == 0.0
  {
  }

  // ----- choosing the edge -----

  /** Twice the way from the middle of the source to the middle of the anchor. */
  function Way(source: Rect, anchor: Rect): Point {
    Point(anchor.x + anchor.Right() - source.x - source.Right(), anchor.y + anchor.Bottom() - source.y - source.Bottom())
  }

  /** The fallback goes from the middle of the source towards that of the anchor, along the longer part of the way. */
  lemma FallbackFollowsWay(source: Rect, anchor: Rect)
    ensures var d, way := FallbackDirection(source, anchor), Way(source, anchor);
            && (d.Vertical() <==> Abs(way.y) >= Abs(way.x))
            && (d.Bottom? ==> way.y >= 0.0) && (d.Top? ==> way.y < 0.0)
            && (d.Right? ==> way.x >= 0.0) && (d.Left? ==> way.x < 0.0)
  {
  }

  /** For an anchor on the output the distances are those of its edges from the output's. */
  lemma EdgeDistances(anchor: Rect, outputWidth: nat, outputHeight: nat)
    requires ValidRect(anchor) && Contains(Rect(0.0, 0.0, outputWidth as real, outputHeight as real), anchor)
    requires outputWidth > 0 && outputHeight > 0
    ensures EdgeDistance(anchor, Top, outputWidth, outputHeight) == anchor.y
    ensures EdgeDistance(anchor, Left, outputWidth, outputHeight) == anchor.x
    ensures EdgeDistance(anchor, Top, outputWidth, outputHeight) + anchor.height
              + EdgeDistance(anchor, Bottom, outputWidth, outputHeight) == outputHeight as real
    ensures EdgeDistance(anchor, Left, outputWidth, outputHeight) + anchor.width
              + EdgeDistance(anchor, Right, outputWidth, outputHeight) == outputWidth as real
  {
  }

  /** One edge is nearer than the three others by more than a pixel, and within reach. */
  predicate Clear(nearest: real, a: real, b: real, c: real, reach: real) {
    nearest + 1.0 < a && nearest + 1.0 < b && nearest + 1.0 < c && nearest <= reach
  }

  /** The direction is the clearly nearest edge if there is one, and otherwise the fallback. */
  lemma NearestEdgeIsClear(top: real, bottom: real, left: real, right: real, reach: real, fallback: Direction)
    ensures Clear(top, bottom, left, right, reach) ==> NearestEdge(top, bottom, left, right, reach, fallback) == Top
    ensures Clear(bottom, top, left, right, reach) ==> NearestEdge(top, bottom, left, right, reach, fallback) == Bottom
    ensures Clear(left, top, bottom, right, reach) ==> NearestEdge(top, bottom, left, right, reach, fallback) == Left
    ensures Clear(right, top, bottom, left, reach) ==> NearestEdge(top, bottom, left, right, reach, fallback) == Right
    ensures || Clear(top, bottom, left, right, reach) || Clear(bottom, top, left, right, reach)
            || Clear(left, top, bottom, right, reach) || Clear(right, top, bottom, left, reach)
            || NearestEdge(top, bottom, left, right, reach, fallback) == fallback
  {
  }

  /** The anchor is nearer to this edge of the output than to any other, by more than a pixel, and within a quarter of it. */
  predicate NearestTo(anchor: Rect, edge: Direction, outputWidth: nat, outputHeight: nat) {
    var distance := EdgeDistance(anchor, edge, outputWidth, outputHeight);
    && (forall other: Direction :: other != edge ==> distance + 1.0 < EdgeDistance(anchor, other, outputWidth, outputHeight))
    && 4.0 * distance <= Max(outputWidth as real, 1.0) && 4.0 * distance <= Max(outputHeight as real, 1.0)
  }

  /** The window goes to the edge the anchor is clearly nearest to, and otherwise the way of the fallback. */
  lemma DirectionIsNearest(source: Rect, anchor: Rect, outputWidth: nat, outputHeight: nat)
    ensures var d := InferDirection(source, anchor, outputWidth, outputHeight);
            && (forall edge :: NearestTo(anchor, edge, outputWidth, outputHeight) ==> d == edge)
            && (NearestTo(anchor, d, outputWidth, outputHeight) || d == FallbackDirection(source, anchor))
  {
    hide EdgeDistance, FallbackDirection, NearestEdge;
    var top, bottom := EdgeDistance(anchor, Top, outputWidth, outputHeight), EdgeDistance(anchor, Bottom, outputWidth, outputHeight);
    var left, right := EdgeDistance(anchor, Left, outputWidth, outputHeight), EdgeDistance(anchor, Right, outputWidth, outputHeight);
    var reach := Min(Max(outputWidth as real, 1.0), Max(outputHeight as real, 1.0)) * 0.25;
    NearestEdgeIsClear(top, bottom, left, right, reach, FallbackDirection(source, anchor));
    forall edge: Direction | NearestTo(anchor, edge, outputWidth, outputHeight)
      ensures InferDirection(source, anchor, outputWidth, outputHeight) == edge
    {
      assert edge != Top ==> EdgeDistance(anchor, edge, outputWidth, outputHeight) + 1.0 < top;
      assert edge != Bottom ==> EdgeDistance(anchor, edge, outputWidth, outputHeight) + 1.0 < bottom;
      assert edge != Left ==> EdgeDistance(anchor, edge, outputWidth, outputHeight) + 1.0 < left;
      assert edge != Right ==> EdgeDistance(anchor, edge, outputWidth, outputHeight) + 1.0 < right;
    }
  }

  /**
   Every motion channel starts at rest and never runs backwards; contraction,
   translation and retreat all end complete.
   */
  lemma ChannelsAdvance(p: real, q: real, bump: real)
    requires p <= q
    ensures var a, b := MotionChannels(p, bump), MotionChannels(q, bump);
            && 0.0 <= a.temporal <= b.temporal <= 1.0 && 0.0 <= a.contraction <= b.contraction <= 1.0
            && 0.0 <= a.translation <= b.translation <= 1.0 && 0.0 <= a.retreat <= b.retreat <= 1.0
            && (q >= 1.0 ==> b.contraction == 1.0 && b.translation == 1.0 && (bump > EPSILON ==> b.retreat == 1.0))
  {
    hide InOutCubic, Smoothstep, SoftStart;
    var s, t := Clamp01(p), Clamp01(q);
    InOutCubicMonotone(s, t);
    SmoothstepMonotone(InOutCubic(s) / CONTRACTION_END, InOutCubic(t) / CONTRACTION_END);
    SmoothstepMonotone(s / RETREAT_END, t / RETREAT_END);
    SoftStartMonotone(InOutCubic(s), InOutCubic(t));
  }
}
