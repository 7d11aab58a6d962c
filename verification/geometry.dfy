/** Points, extents and the pixel transforms of the graphic layer source
    (src/openlayers/overlay/Graphic.js). Coordinates and pixels are pairs of
    reals; the trigonometric functions the source calls are not modelled, so a
    rotation is given by its cosine and sine. */
module Geometry {

  /** A pair of reals: a map coordinate in map units, or a pixel. */
  datatype Point = Point(x: real, y: real)

  /** An axis-aligned box laid out as an OpenLayers extent [minX, minY, maxX, maxY]. */
  datatype Extent = Extent(minX: real, minY: real, maxX: real, maxY: real)

  /** OpenLayers' containsCoordinate: inclusive on every border. */
  predicate ContainsCoordinate(e: Extent, p: Point) {
    e.minX <= p.x <= e.maxX && e.minY <= p.y <= e.maxY
  }

  /** OpenLayers' containsExtent: `inner` lies inside `outer`, borders included. */
  predicate ContainsExtent(outer: Extent, inner: Extent) {
    outer.minX <= inner.minX && inner.maxX <= outer.maxX &&
    outer.minY <= inner.minY && inner.maxY <= outer.maxY
  }

  /** The extent of a point geometry: the degenerate box at the point. */
  function PointExtent(p: Point): (e: Extent)
    ensures ContainsCoordinate(e, p)
    ensures forall q :: ContainsCoordinate(e, q) ==> q == p
  {
    Extent(p.x, p.y, p.x, p.y)
  }

  /** A point's extent lies inside a box exactly when the point does. */
  lemma PointExtentContained(e: Extent, p: Point)
    ensures ContainsExtent(e, PointExtent(p)) <==> ContainsCoordinate(e, p)
  {
  }

  /** The `scale` helper: `p` moved away from (or towards) `center` by `ratio`. */
  function ScaleAbout(p: Point, center: Point, ratio: real): (q: Point)
    ensures q.x - center.x == (p.x - center.x) * ratio
    ensures q.y - center.y == (p.y - center.y) * ratio
    ensures ratio == 1.0 ==> q == p
    ensures p == center ==> q == center
  {
    Point((p.x - center.x) * ratio + center.x, (p.y - center.y) * ratio + center.y)
  }

  /** Scaling by a non-zero ratio is undone by scaling by its reciprocal. */
  lemma {:induction false} ScaleInverse(p: Point, center: Point, ratio: real)
    requires ratio != 0.0
    ensures ScaleAbout(ScaleAbout(p, center, ratio), center, 1.0 / ratio) == p
  {
    var q := ScaleAbout(p, center, ratio);
    calc {
      (q.x - center.x) * (1.0 / ratio);
      ((p.x - center.x) * ratio) * (1.0 / ratio);
      (p.x - center.x) * (ratio * (1.0 / ratio));
      p.x - center.x;
    }
    calc {
      (q.y - center.y) * (1.0 / ratio);
      ((p.y - center.y) * ratio) * (1.0 / ratio);
      (p.y - center.y) * (ratio * (1.0 / ratio));
      p.y - center.y;
    }
  }

  function SquaredDistance(p: Point, q: Point): real {
    (p.x - q.x) * (p.x - q.x) + (p.y - q.y) * (p.y - q.y)
  }

  /** Scaling by `ratio` multiplies the squared distance from the centre by ratio². */
  lemma {:induction false} ScaleDistance(p: Point, center: Point, ratio: real)
    ensures SquaredDistance(ScaleAbout(p, center, ratio), center) == ratio * ratio * SquaredDistance(p, center)
  {
    var dx, dy := p.x - center.x, p.y - center.y;
    var q := ScaleAbout(p, center, ratio);
    assert q.x - center.x == dx * ratio && q.y - center.y == dy * ratio;
    calc {
      (dx * ratio) * (dx * ratio) + (dy * ratio) * (dy * ratio);
      ratio * ratio * (dx * dx + dy * dy);
    }
  }

  /** The `rotate` helper: counter-clockwise rotation of `p` about `center`
      by the angle whose cosine and sine are `cosA` and `sinA`. */
  function RotateAbout(p: Point, cosA: real, sinA: real, center: Point): (q: Point)
    ensures cosA == 1.0 && sinA == 0.0 ==> q == p
    ensures p == center ==> q == center
  {
    Point(cosA * (p.x - center.x) - sinA * (p.y - center.y) + center.x,
          sinA * (p.x - center.x) + cosA * (p.y - center.y) + center.y)
  }

  /** A rotation (cos² + sin² = 1) keeps the distance from the centre. */
  lemma {:induction false} RotationKeepsDistance(p: Point, cosA: real, sinA: real, center: Point)
    requires cosA * cosA + sinA * sinA == 1.0
    ensures SquaredDistance(RotateAbout(p, cosA, sinA, center), center) == SquaredDistance(p, center)
  {
    var dx, dy := p.x - center.x, p.y - center.y;
    var q := RotateAbout(p, cosA, sinA, center);
    assert q.x - center.x == cosA * dx - sinA * dy;
    assert q.y - center.y == sinA * dx + cosA * dy;
    calc {
      (cosA * dx - sinA * dy) * (cosA * dx - sinA * dy) + (sinA * dx + cosA * dy) * (sinA * dx + cosA * dy);
      (cosA * cosA + sinA * sinA) * (dx * dx) + (cosA * cosA + sinA * sinA) * (dy * dy);
      dx * dx + dy * dy;
    }
  }

  /** Rotating by an angle and then by its opposite (same cosine, negated
      sine) returns the original pixel. */
  lemma {:induction false} RotationInverse(p: Point, cosA: real, sinA: real, center: Point)
    requires cosA * cosA + sinA * sinA == 1.0
    ensures RotateAbout(RotateAbout(p, cosA, sinA, center), cosA, -sinA, center) == p
  {
    var dx, dy := p.x - center.x, p.y - center.y;
    var q := RotateAbout(p, cosA, sinA, center);
    var ex, ey := q.x - center.x, q.y - center.y;
    assert ex == cosA * dx - sinA * dy;
    assert ey == sinA * dx + cosA * dy;
    calc {
      cosA * ex + sinA * ey;
      cosA * (cosA * dx - sinA * dy) + sinA * (sinA * dx + cosA * dy);
      (cosA * cosA + sinA * sinA) * dx;
      dx;
    }
    calc {
      -sinA * ex + cosA * ey;
      -sinA * (cosA * dx - sinA * dy) + cosA * (sinA * dx + cosA * dy);
      (cosA * cosA + sinA * sinA) * dy;
      dy;
    }
  }

  /** Math.ceil on a finite number: the least integer not below `x`. */
  function Ceil(x: real): (n: int)
    ensures (n - 1) as real < x <= n as real
  {
    -((-x).Floor)
  }
}
