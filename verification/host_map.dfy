/** What the graphic layer source reads from the host map and from the
    JavaScript Math library. None of it is modelled: each is a value or an
    uninterpreted function supplied by the caller. */
module HostMap {
  import opened Geometry

  datatype Host = Host(
    /** `map.getPixelFromCoordinate` */
    pixelOf: Point -> Point,
    /** `map.getView().getCenter()` */
    viewCenter: Point,
    /** `map.getView().getRotation()`, in radians */
    viewRotation: real,
    /** `map.getSize()`: width and height in CSS pixels */
    mapSize: Point,
    /** `Math.atan2(y, x) / Math.PI * 180`: an angle in degrees */
    atan2Degrees: (real, real) -> real,
    /** `Math.cos` and `Math.sin` */
    cos: real -> real,
    sin: real -> real)

  /** `Math.atan2` answers in [-π, π], so in degrees within [-180, 180]. */
  ghost predicate Atan2InRange(h: Host) {
    forall y, x :: -180.0 <= h.atan2Degrees(y, x) <= 180.0
  }
}
