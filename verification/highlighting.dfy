/** The highlight controller of the graphic layer source: `_highLight` and
    `_highLightClose` of src/openlayers/overlay/Graphic.js, including the
    sector arithmetic for clover-shaped graphics. Adding and removing the
    overlay layer on the host map is modelled by the source's `mapOverlays`. */
module Highlighting {
  import opened Options
  import opened Geometry
  import opened Styles
  import opened GraphicSource
  import opened HostMap

  /** The default stroke and fill of a clicked sector's overlay. */
  const SectorStroke: Stroke := Stroke("#ff0000", 1.0)
  const SectorFill: Fill := Fill("#0099ff")

  /** An atan2 answer moved into (0, 360]: a positive answer is kept and any
      other has 360 added, so an answer of exactly 0 becomes 360. */
  function NormalizeAngle(a: real): (r: real)
    ensures r == a || r == a + 360.0
    ensures -180.0 <= a <= 180.0 ==> 0.0 < r <= 360.0
    ensures 0.0 < a ==> r == a
  {
    if a > 0.0 then a else 360.0 + a
  }

  /** A clicked sector: its 1-based index and its start and end angles. */
  datatype Sector = Sector(index: int, sAngle: real, eAngle: real)

  /** If q lies in (lo, lo + 1] and q·w is the angle, then lo·w and lo·w + w
      bracket the angle: from below when w is positive, from above when it is
      negative. */
  lemma {:induction false} Bracket(lo: real, q: real, w: real, angle: real)
    requires lo < q <= lo + 1.0 && q * w == angle
    ensures w > 0.0 ==> lo * w < angle <= lo * w + w
    ensures w < 0.0 ==> lo * w + w <= angle < lo * w
  {
    var below, above := q - lo, lo + 1.0 - q;
    assert below * w == angle - lo * w;
    assert above * w == lo * w + w - angle;
    if w > 0.0 {
      assert below * w > 0.0;
      assert above * w >= 0.0;
    } else if w < 0.0 {
      assert below * w < 0.0;
      assert above * w <= 0.0;
    }
  }

  /** Dividing by a non-zero factor and multiplying back is the identity. */
  lemma DivideThenScale(angle: real, w: real)
    requires w != 0.0
    ensures angle / w * w == angle
  {
  }

  /** ceil(angle / w) - 1 and ceil(angle / w), scaled by w, bracket the angle. */
  lemma {:induction false} CeilBounds(angle: real, w: real)
    requires w != 0.0
    ensures var n := Ceil(angle / w);
            (w > 0.0 ==> (n - 1) as real * w < angle <= (n - 1) as real * w + w) &&
            (w < 0.0 ==> (n - 1) as real * w + w <= angle < (n - 1) as real * w)
  {
    var q := angle / w;
    var n := Ceil(q);
    DivideThenScale(angle, w);
    Bracket((n - 1) as real, q, w, angle);
  }

  /** The sector holding `angle` on a clover whose sectors are `sectorAngle`
      wide and separated by `spaceAngle`: index ceil(angle/(a+s)), start
      (index-1)·(a+s), end start + a. When a+s is 0 the source divides by
      zero and draws with NaN angles; the model then has no sector. */
  function SectorAt(angle: real, sectorAngle: real, spaceAngle: real): (r: Option<Sector>)
    ensures r.None? <==> sectorAngle + spaceAngle == 0.0
    ensures r.Some? ==> r.value.sAngle == (r.value.index - 1) as real * (sectorAngle + spaceAngle)
    ensures r.Some? ==> r.value.eAngle == r.value.sAngle + sectorAngle
    ensures r.Some? && sectorAngle + spaceAngle > 0.0 ==>
              r.value.sAngle < angle <= r.value.sAngle + (sectorAngle + spaceAngle)
    ensures r.Some? && sectorAngle + spaceAngle < 0.0 ==>
              r.value.sAngle + (sectorAngle + spaceAngle) <= angle < r.value.sAngle
    ensures r.Some? && sectorAngle + spaceAngle > 0.0 && angle > 0.0 ==> r.value.index >= 1
  {
    var w := sectorAngle + spaceAngle;
    if w == 0.0 then None
    else
      var index := Ceil(angle / w);
      var sAngle := (index - 1) as real * w;
      CeilBounds(angle, w);
      Some(Sector(index, sAngle, sAngle + sectorAngle))
  }

  /** Sectors of 60° with no gap: a click at 95° strikes the second sector,
      which runs from 60° to 120°. */
  lemma SectorExample()
    ensures SectorAt(95.0, 60.0, 0.0) == Some(Sector(2, 60.0, 120.0))
  {
    var r := SectorAt(95.0, 60.0, 0.0);
    assert r.value.index == 2 by {
      assert (r.value.index - 1) as real < 95.0 / 60.0 <= r.value.index as real by {
        assert r.value.sAngle < 95.0 <= r.value.sAngle + 60.0;
      }
    }
  }

  /** Within a sector, the part past the sector's width is the gap: a click
      there still selects this sector. */
  lemma {:induction false} SectorCoversGap(angle: real, sectorAngle: real, spaceAngle: real)
    requires sectorAngle >= 0.0 && spaceAngle >= 0.0 && sectorAngle + spaceAngle > 0.0
    ensures var r := SectorAt(angle, sectorAngle, spaceAngle);
            r.Some? && r.value.sAngle <= r.value.eAngle <= r.value.sAngle + sectorAngle + spaceAngle
  {
  }

  /** The angle, in (0, 360] for a well-behaved atan2, from the graphic's
      centre pixel to the clicked pixel; a missing click pixel counts as [0, 0]. */
  function ClickAngle(center: Point, evtPixel: Option<Point>, host: Host): (r: real)
    ensures var pixel := host.pixelOf(center);
            var ev := evtPixel.GetOr(Point(0.0, 0.0));
            var raw := host.atan2Degrees(ev.y - pixel.y, ev.x - pixel.x);
            r == raw || r == raw + 360.0
    ensures Atan2InRange(host) ==> 0.0 < r <= 360.0
  {
    var pixel := host.pixelOf(center);
    var ev := evtPixel.GetOr(Point(0.0, 0.0));
    NormalizeAngle(host.atan2Degrees(ev.y - pixel.y, ev.x - pixel.x))
  }

  /** The hit-clover style of the overlay for a click at `angle` on a clover:
      the clover's radius and sector width with a red stroke and blue fill,
      or the stroke, fill, radius and width of a configured hit-clover
      highlight style; the start and end angles are always those of the
      clicked sector, index ceil(angle/(a+s)), the end computed with the
      clover's own width. */
  function HitCloverStyle(clover: Style, angle: real, highLightStyle: Option<Style>): (r: Style)
    requires clover.Clover?
    ensures r.HitClover?
    ensures highLightStyle.Some? && highLightStyle.value.HitClover? ==>
              var h := highLightStyle.value;
              r.stroke == h.stroke && r.fill == h.fill && r.radius == h.radius && r.angle == h.angle
    ensures !(highLightStyle.Some? && highLightStyle.value.HitClover?) ==>
              r.stroke == Some(SectorStroke) && r.fill == Some(SectorFill) &&
              r.radius == clover.radius && r.angle == clover.angle
    ensures clover.angle + clover.spaceAngle == 0.0 ==> r.sAngle == NaN && r.eAngle == NaN
    ensures var w := clover.angle + clover.spaceAngle;
            w != 0.0 ==>
              r.sAngle == Finite((Ceil(angle / w) - 1) as real * w) &&
              r.eAngle == Finite((Ceil(angle / w) - 1) as real * w + clover.angle)
    ensures clover.angle + clover.spaceAngle > 0.0 ==>
              r.sAngle.Finite? && r.eAngle.Finite? &&
              r.eAngle.value == r.sAngle.value + clover.angle &&
              r.sAngle.value < angle <= r.sAngle.value + clover.angle + clover.spaceAngle
    ensures clover.angle + clover.spaceAngle < 0.0 ==>
              r.sAngle.Finite? && r.eAngle.Finite? &&
              r.eAngle.value == r.sAngle.value + clover.angle &&
              r.sAngle.value + clover.angle + clover.spaceAngle <= angle < r.sAngle.value
  {
    var sector := SectorAt(angle, clover.angle, clover.spaceAngle);
    var sAngle := if sector.Some? then Finite(sector.value.sAngle) else NaN;
    var eAngle := if sector.Some? then Finite(sector.value.eAngle) else NaN;
    match highLightStyle
    case Some(HitClover(radius, width, _, _, fill, stroke)) =>
      HitClover(radius, width, sAngle, eAngle, fill, stroke)
    case _ =>
      HitClover(clover.radius, clover.angle, sAngle, eAngle, Some(SectorFill), Some(SectorStroke))
  }

  /** `map.removeLayer`: the first occurrence of the layer leaves the map. */
  function RemoveFirst(layers: seq<Overlay>, o: Overlay): (r: seq<Overlay>)
    ensures o !in layers ==> r == layers
    ensures o in layers ==> |r| == |layers| - 1 && multiset(r) == multiset(layers) - multiset{o}
    decreases |layers|
  {
    if layers == [] then []
    else
      assert layers == [layers[0]] + layers[1..];
      if layers[0] == o then layers[1..]
      else [layers[0]] + RemoveFirst(layers[1..], o)
  }

  /** Removes the current overlay layer from the map, if there is one, and
      forgets it. */
  function DropOverlay(s: Source): (r: Source)
    ensures r.hitGraphicLayer.None?
    ensures s.hitGraphicLayer.None? ==> r == s
    ensures s.hitGraphicLayer.Some? ==> r.mapOverlays == RemoveFirst(s.mapOverlays, s.hitGraphicLayer.value)
    ensures r.(hitGraphicLayer := s.hitGraphicLayer, mapOverlays := s.mapOverlays) == s
  {
    match s.hitGraphicLayer
    case None => s
    case Some(o) => s.(hitGraphicLayer := None, mapOverlays := RemoveFirst(s.mapOverlays, o))
  }

  /** The overlay bookkeeping agrees with the map: the map holds exactly the
      current overlay layer, or none. */
  predicate OverlayConsistent(s: Source) {
    s.mapOverlays == if s.hitGraphicLayer.Some? then [s.hitGraphicLayer.value] else []
  }

  /** `_highLight`. A clover graphic gets a fresh overlay for the clicked
      sector after any previous overlay is removed, and the selection is
      left alone; any other graphic becomes the selection. */
  function HighLight(s: Source, g: Graphic, evtPixel: Option<Point>, host: Host): (r: Source)
    ensures !g.style.Clover? ==> r.selected == Some(g)
    ensures !g.style.Clover? ==> r.(selected := s.selected) == s
    ensures g.style.Clover? ==> r.selected == s.selected
    ensures g.style.Clover? ==>
              r.hitGraphicLayer == Some(Overlay(g.position,
                HitCloverStyle(g.style, ClickAngle(g.position, evtPixel, host), s.highLightStyle)))
    ensures g.style.Clover? ==> r.mapOverlays == DropOverlay(s).mapOverlays + [r.hitGraphicLayer.value]
    ensures r.graphics == s.graphics && r.isHighLight == s.isHighLight && r.highLightStyle == s.highLightStyle
    ensures OverlayConsistent(s) ==> OverlayConsistent(r)
    ensures OverlayConsistent(s) && g.style.Clover? ==> |r.mapOverlays| == 1
  {
    if g.style.Clover? then
      var cleared := DropOverlay(s);
      var angle := ClickAngle(g.position, evtPixel, host);
      var o := Overlay(g.position, HitCloverStyle(g.style, angle, s.highLightStyle));
      cleared.(hitGraphicLayer := Some(o), mapOverlays := cleared.mapOverlays + [o])
    else
      s.(selected := Some(g))
  }

  /** `_highLightClose`: no selection and no overlay afterwards. */
  function HighLightClose(s: Source): (r: Source)
    ensures r.selected.None? && r.hitGraphicLayer.None?
    ensures r.mapOverlays == DropOverlay(s).mapOverlays
    ensures r.graphics == s.graphics && r.isHighLight == s.isHighLight && r.highLightStyle == s.highLightStyle
    ensures OverlayConsistent(s) ==> OverlayConsistent(r) && r.mapOverlays == []
  {
    DropOverlay(s.(selected := None))
  }

  /** Closing twice is closing once. */
  lemma CloseIdempotent(s: Source)
    ensures HighLightClose(HighLightClose(s)) == HighLightClose(s)
  {
  }

  /** Any number of clover hits in a row leave exactly one overlay on the map. */
  lemma {:induction false} CloverHitsKeepOneOverlay(s: Source, hits: seq<Graphic>, evtPixel: Option<Point>, host: Host)
    requires OverlayConsistent(s)
    requires |hits| > 0
    requires forall i :: 0 <= i < |hits| ==> hits[i].style.Clover?
    ensures var r := CloverHits(s, hits, evtPixel, host);
            OverlayConsistent(r) && |r.mapOverlays| == 1 && r.selected == s.selected
    decreases |hits|
  {
    if |hits| > 1 {
      CloverHitsKeepOneOverlay(HighLight(s, hits[0], evtPixel, host), hits[1..], evtPixel, host);
    }
  }

  function CloverHits(s: Source, hits: seq<Graphic>, evtPixel: Option<Point>, host: Host): Source
    decreases |hits|
  {
    if hits == [] then s else CloverHits(HighLight(s, hits[0], evtPixel, host), hits[1..], evtPixel, host)
  }
}
