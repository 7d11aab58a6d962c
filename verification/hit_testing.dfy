/** The hit tester of the graphic layer source: `_forEachFeatureAtCoordinate`
    of src/openlayers/overlay/Graphic.js, as written and with the highlight
    closed once after a complete miss. */
module HitTesting {
  import opened Options
  import opened Geometry
  import opened Styles
  import opened GraphicSource
  import opened HostMap
  import opened Highlighting

  /** The box a graphic answers clicks in: its centre plus and minus its
      style's anchor scaled by the resolution, in map units. */
  function HitBox(g: Graphic, resolution: real): (e: Extent)
    requires !g.style.HitClover?
    ensures forall p :: ContainsCoordinate(e, p) <==>
              -(g.style.anchor.x * resolution) <= p.x - g.position.x <= g.style.anchor.x * resolution &&
              -(g.style.anchor.y * resolution) <= p.y - g.position.y <= g.style.anchor.y * resolution
    ensures ContainsCoordinate(e, g.position) <==>
              g.style.anchor.x * resolution >= 0.0 && g.style.anchor.y * resolution >= 0.0
  {
    var a := g.style.anchor;
    Extent(g.position.x - a.x * resolution, g.position.y - a.y * resolution,
           g.position.x + a.x * resolution, g.position.y + a.y * resolution)
  }

  /** A graphic the click at `coordinate` selects: not an overlay sector,
      and its hit box holds the coordinate. */
  predicate Hittable(g: Graphic, coordinate: Point, resolution: real) {
    !g.style.HitClover? && ContainsCoordinate(HitBox(g, resolution), coordinate)
  }

  /** The highest index below `n` whose graphic is hittable. */
  function TopmostHitBelow(gs: seq<Graphic>, coordinate: Point, resolution: real, n: nat): (r: Option<nat>)
    requires n <= |gs|
    ensures r.Some? ==> r.value < n && Hittable(gs[r.value], coordinate, resolution)
    ensures r.Some? ==> forall j :: r.value < j < n ==> !Hittable(gs[j], coordinate, resolution)
    ensures r.None? ==> forall j :: 0 <= j < n ==> !Hittable(gs[j], coordinate, resolution)
    decreases n
  {
    if n == 0 then None
    else if Hittable(gs[n - 1], coordinate, resolution) then Some(n - 1)
    else TopmostHitBelow(gs, coordinate, resolution, n - 1)
  }

  /** The topmost (last drawn) hittable graphic of the store. */
  function TopmostHit(gs: seq<Graphic>, coordinate: Point, resolution: real): (r: Option<nat>)
    ensures r.Some? ==> r.value < |gs| && Hittable(gs[r.value], coordinate, resolution)
    ensures r.Some? ==> forall j :: r.value < j < |gs| ==> !Hittable(gs[j], coordinate, resolution)
    ensures r.None? ==> forall j :: 0 <= j < |gs| ==> !Hittable(gs[j], coordinate, resolution)
  {
    TopmostHitBelow(gs, coordinate, resolution, |gs|)
  }

  /** Of two graphics whose boxes both hold the click, the later one wins. */
  lemma ReversePriority(gs: seq<Graphic>, coordinate: Point, resolution: real, i: nat, j: nat)
    requires i < j < |gs|
    requires Hittable(gs[i], coordinate, resolution) && Hittable(gs[j], coordinate, resolution)
    ensures TopmostHit(gs, coordinate, resolution).Some?
    ensures TopmostHit(gs, coordinate, resolution).value >= j
  {
  }

  /** Some graphic strictly between index `lo` and `n` is not an overlay
      sector, so a scan coming down from `n` closes the highlight on it. */
  predicate PassesMiss(gs: seq<Graphic>, lo: int, n: nat)
    requires -1 <= lo && n <= |gs|
  {
    exists j :: lo < j < n && !gs[j].style.HitClover?
  }

  /** The scan of `_forEachFeatureAtCoordinate` over indices n-1 down to 0,
      as written: overlay sectors are skipped, every other graphic that
      misses closes the highlight (when highlighting is on) before the scan
      goes on, and the first hit is highlighted and handed to `callback`. */
  function ScanAsWritten<R>(s: Source, gs: seq<Graphic>, n: nat, coordinate: Point, resolution: real,
                            callback: Graphic -> R, evtPixel: Option<Point>, host: Host): (r: (Source, Option<R>))
    requires n <= |gs|
    ensures r.1 == match TopmostHitBelow(gs, coordinate, resolution, n)
                   case Some(i) => Some(callback(gs[i]))
                   case None => None
    ensures !s.isHighLight ==> r.0 == s
    ensures r.0.graphics == s.graphics && r.0.isHighLight == s.isHighLight
    ensures r.0.highLightStyle == s.highLightStyle
    ensures OverlayConsistent(s) ==> OverlayConsistent(r.0)
    decreases n
  {
    if n == 0 then (s, None)
    else
      var g := gs[n - 1];
      if g.style.HitClover? then
        ScanAsWritten(s, gs, n - 1, coordinate, resolution, callback, evtPixel, host)
      else if ContainsCoordinate(HitBox(g, resolution), coordinate) then
        var s' := if s.isHighLight then HighLight(s, g, evtPixel, host) else s;
        (s', Some(callback(g)))
      else
        var s' := if s.isHighLight then HighLightClose(s) else s;
        ScanAsWritten(s', gs, n - 1, coordinate, resolution, callback, evtPixel, host)
  }

  /** The state the as-written scan has reached when it comes down from
      `n` to just above `lo`: closed if it passed a graphic, else untouched. */
  function Passed(s: Source, gs: seq<Graphic>, lo: int, n: nat): (r: Source)
    requires -1 <= lo && n <= |gs|
    ensures PassesMiss(gs, lo, n) ==> r == HighLightClose(s)
    ensures !PassesMiss(gs, lo, n) ==> r == s
  {
    if PassesMiss(gs, lo, n) then HighLightClose(s) else s
  }

  /** One graphic that is neither a sector nor hit closes the highlight,
      and closing again changes nothing. */
  lemma {:induction false} PassedMiss(s: Source, gs: seq<Graphic>, lo: int, n: nat)
    requires -1 <= lo < n - 1 && 0 < n <= |gs| && !gs[n - 1].style.HitClover?
    ensures Passed(HighLightClose(s), gs, lo, n - 1) == Passed(s, gs, lo, n) == HighLightClose(s)
  {
    CloseIdempotent(s);
    assert PassesMiss(gs, lo, n) by { assert lo < n - 1 < n && !gs[n - 1].style.HitClover?; }
  }

  /** Skipping a sector changes nothing about what was passed. */
  lemma {:induction false} PassedSector(s: Source, gs: seq<Graphic>, lo: int, n: nat)
    requires -1 <= lo < n - 1 && 0 < n <= |gs| && gs[n - 1].style.HitClover?
    ensures Passed(s, gs, lo, n - 1) == Passed(s, gs, lo, n)
  {
    assert PassesMiss(gs, lo, n) == PassesMiss(gs, lo, n - 1);
  }

  /** As written, a hit highlights the topmost hittable graphic, after the
      highlight was closed if any other graphic was passed on the way down. */
  lemma {:induction false} ScanHighlightsHit<R>(s: Source, gs: seq<Graphic>, n: nat, coordinate: Point, resolution: real,
                                                 callback: Graphic -> R, evtPixel: Option<Point>, host: Host)
    requires n <= |gs| && s.isHighLight
    requires TopmostHitBelow(gs, coordinate, resolution, n).Some?
    ensures var i := TopmostHitBelow(gs, coordinate, resolution, n).value;
            ScanAsWritten(s, gs, n, coordinate, resolution, callback, evtPixel, host).0 ==
            HighLight(Passed(s, gs, i, n), gs[i], evtPixel, host)
    decreases n
  {
    var i := TopmostHitBelow(gs, coordinate, resolution, n).value;
    if i < n - 1 {
      if gs[n - 1].style.HitClover? {
        ScanHighlightsHit(s, gs, n - 1, coordinate, resolution, callback, evtPixel, host);
        PassedSector(s, gs, i, n);
      } else {
        ScanHighlightsHit(HighLightClose(s), gs, n - 1, coordinate, resolution, callback, evtPixel, host);
        PassedMiss(s, gs, i, n);
      }
    } else {
      assert !PassesMiss(gs, i, n);
    }
  }

  /** As written, a complete miss closes the highlight unless only overlay
      sectors were passed. */
  lemma {:induction false} ScanHighlightsMiss<R>(s: Source, gs: seq<Graphic>, n: nat, coordinate: Point, resolution: real,
                                                  callback: Graphic -> R, evtPixel: Option<Point>, host: Host)
    requires n <= |gs| && s.isHighLight
    requires TopmostHitBelow(gs, coordinate, resolution, n).None?
    ensures ScanAsWritten(s, gs, n, coordinate, resolution, callback, evtPixel, host).0 == Passed(s, gs, -1, n)
    decreases n
  {
    if n > 0 {
      if gs[n - 1].style.HitClover? {
        ScanHighlightsMiss(s, gs, n - 1, coordinate, resolution, callback, evtPixel, host);
        PassedSector(s, gs, -1, n);
      } else {
        ScanHighlightsMiss(HighLightClose(s), gs, n - 1, coordinate, resolution, callback, evtPixel, host);
        PassedMiss(s, gs, -1, n);
      }
    } else {
      assert !PassesMiss(gs, -1, n);
    }
  }

  /** `_forEachFeatureAtCoordinate` as written, over a snapshot of the store.
      A hit highlights the topmost hittable graphic, after the highlight was
      closed if a graphic above it was passed; a miss closes the highlight
      unless the store holds nothing but overlay sectors. */
  function ForEachFeatureAtCoordinate<R>(s: Source, coordinate: Point, resolution: real,
                                         callback: Graphic -> R, evtPixel: Option<Point>, host: Host): (r: (Source, Option<R>))
    ensures var top := TopmostHit(s.graphics, coordinate, resolution);
            r.1 == if top.Some? then Some(callback(s.graphics[top.value])) else None
    ensures var top := TopmostHit(s.graphics, coordinate, resolution);
            s.isHighLight && top.Some? ==>
              r.0 == HighLight(Passed(s, s.graphics, top.value, |s.graphics|), s.graphics[top.value], evtPixel, host)
    ensures var top := TopmostHit(s.graphics, coordinate, resolution);
            s.isHighLight && top.Some? && !s.graphics[top.value].style.Clover? ==>
              r.0.selected == Some(s.graphics[top.value])
    ensures var top := TopmostHit(s.graphics, coordinate, resolution);
            s.isHighLight && top.None? ==> r.0 == Passed(s, s.graphics, -1, |s.graphics|)
    ensures !s.isHighLight ==> r.0 == s
    ensures r.0.graphics == s.graphics
    ensures OverlayConsistent(s) ==> OverlayConsistent(r.0) && |r.0.mapOverlays| <= 1
  {
    var gs := GetGraphicsInExtent(s, None);
    var top := TopmostHitBelow(gs, coordinate, resolution, |gs|);
    if s.isHighLight && top.Some? then
      ScanHighlightsHit(s, gs, |gs|, coordinate, resolution, callback, evtPixel, host);
      ScanAsWritten(s, gs, |gs|, coordinate, resolution, callback, evtPixel, host)
    else if s.isHighLight then
      ScanHighlightsMiss(s, gs, |gs|, coordinate, resolution, callback, evtPixel, host);
      ScanAsWritten(s, gs, |gs|, coordinate, resolution, callback, evtPixel, host)
    else
      ScanAsWritten(s, gs, |gs|, coordinate, resolution, callback, evtPixel, host)
  }

  /** The hit test with the highlight closed once, after nothing matched:
      the topmost hit is highlighted and handed to `callback`; a miss closes
      the highlight. */
  function ForEachFeatureClosingOnMiss<R>(s: Source, coordinate: Point, resolution: real,
                                          callback: Graphic -> R, evtPixel: Option<Point>, host: Host): (r: (Source, Option<R>))
    ensures var top := TopmostHit(s.graphics, coordinate, resolution);
            r.1 == if top.Some? then Some(callback(s.graphics[top.value])) else None
    ensures var top := TopmostHit(s.graphics, coordinate, resolution);
            s.isHighLight && top.Some? ==> r.0 == HighLight(s, s.graphics[top.value], evtPixel, host)
    ensures var top := TopmostHit(s.graphics, coordinate, resolution);
            s.isHighLight && top.Some? && !s.graphics[top.value].style.Clover? ==>
              r.0.selected == Some(s.graphics[top.value])
    ensures s.isHighLight && TopmostHit(s.graphics, coordinate, resolution).None? ==>
              r.0 == HighLightClose(s) && r.0.selected.None? && r.0.hitGraphicLayer.None?
    ensures !s.isHighLight ==> r.0 == s
    ensures r.0.graphics == s.graphics
    ensures OverlayConsistent(s) ==> OverlayConsistent(r.0) && |r.0.mapOverlays| <= 1
  {
    var gs := GetGraphicsInExtent(s, None);
    match TopmostHit(gs, coordinate, resolution)
    case Some(i) =>
      (if s.isHighLight then HighLight(s, gs[i], evtPixel, host) else s, Some(callback(gs[i])))
    case None =>
      (if s.isHighLight then HighLightClose(s) else s, None)
  }

  /** With the close-on-miss scan, the highlight state after a click depends
      only on the previous state and the graphic hit, not on the graphics
      around it in the store. */
  lemma ClosingOnMissDependsOnlyOnTopHit<R>(s: Source, gs1: seq<Graphic>, gs2: seq<Graphic>,
                                            coordinate: Point, resolution: real,
                                            callback: Graphic -> R, evtPixel: Option<Point>, host: Host)
    requires var t1, t2 := TopmostHit(gs1, coordinate, resolution), TopmostHit(gs2, coordinate, resolution);
             (t1.None? && t2.None?) || (t1.Some? && t2.Some? && gs1[t1.value] == gs2[t2.value])
    ensures var r1 := ForEachFeatureClosingOnMiss(s.(graphics := gs1), coordinate, resolution, callback, evtPixel, host);
            var r2 := ForEachFeatureClosingOnMiss(s.(graphics := gs2), coordinate, resolution, callback, evtPixel, host);
            r1.0.(graphics := s.graphics) == r2.0.(graphics := s.graphics) && r1.1 == r2.1
  {
  }

  /** The counterexample of the hit scan: a host whose pixels are map
      coordinates and whose view is not rotated, ... */
  const ExampleHost: Host := Host(p => p, Point(0.0, 0.0), 0.0, Point(0.0, 0.0), (y, x) => 0.0, t => 1.0, t => 0.0)
  /** ... a circle at the origin that a click there hits, ... */
  const HitCircle: Graphic := Graphic(1, Point(0.0, 0.0), Circle(1.0, None, None, false, Point(1.0, 1.0)))
  /** ... a circle far away that the click misses, ... */
  const MissCircle: Graphic := Graphic(2, Point(100.0, 100.0), Circle(1.0, None, None, false, Point(1.0, 1.0)))
  /** ... and an open sector overlay left by an earlier clover click. */
  const OpenOverlay: Overlay := Overlay(Point(50.0, 50.0), HitClover(1.0, 60.0, Finite(0.0), Finite(60.0), None, None))
  const OpenSource: Source := Source([], None, Some(OpenOverlay), [OpenOverlay], true, None)

  /** As written, whether a click on a circle keeps the open sector overlay
      depends on the draw order of another graphic the click does not touch:
      drawn below the hit circle it leaves the overlay open, drawn above it
      closes the overlay. */
  lemma AsWrittenDependsOnUntouchedGraphic()
    ensures var click := Point(0.0, 0.0);
            var missBelow := ForEachFeatureAtCoordinate(OpenSource.(graphics := [MissCircle, HitCircle]),
                                                        click, 1.0, g => g, None, ExampleHost);
            var missAbove := ForEachFeatureAtCoordinate(OpenSource.(graphics := [HitCircle, MissCircle]),
                                                        click, 1.0, g => g, None, ExampleHost);
            missBelow.1 == missAbove.1 == Some(HitCircle) &&
            missBelow.0.hitGraphicLayer == Some(OpenOverlay) && missAbove.0.hitGraphicLayer.None?
  {
    var click := Point(0.0, 0.0);
    assert Hittable(HitCircle, click, 1.0);
    assert !Hittable(MissCircle, click, 1.0);
    var gs := [HitCircle, MissCircle];
    assert ScanAsWritten(OpenSource.(graphics := gs), gs, 2, click, 1.0, g => g, None, ExampleHost)
        == ScanAsWritten(HighLightClose(OpenSource.(graphics := gs)), gs, 1, click, 1.0, g => g, None, ExampleHost);
  }

  /** With the close-on-miss scan the same two stores agree. */
  lemma ClosingOnMissIgnoresUntouchedGraphic()
    ensures var click := Point(0.0, 0.0);
            var missBelow := ForEachFeatureClosingOnMiss(OpenSource.(graphics := [MissCircle, HitCircle]),
                                                         click, 1.0, g => g, None, ExampleHost);
            var missAbove := ForEachFeatureClosingOnMiss(OpenSource.(graphics := [HitCircle, MissCircle]),
                                                         click, 1.0, g => g, None, ExampleHost);
            missBelow.1 == missAbove.1 == Some(HitCircle) &&
            missBelow.0.hitGraphicLayer == missAbove.0.hitGraphicLayer == Some(OpenOverlay)
  {
    var click := Point(0.0, 0.0);
    assert Hittable(HitCircle, click, 1.0);
    assert !Hittable(MissCircle, click, 1.0);
  }

  /** A pointer click as the host map reports it. */
  datatype Click = Click(coordinate: Point, resolution: real, pixel: Option<Point>)

  /** Which hit test handles a click: the code's, or the one that closes
      the highlight once on a miss. */
  datatype HitTest = AsWritten | ClosingOnMiss

  /** The source's state after one click handled by `test`. */
  function AfterClick(s: Source, c: Click, test: HitTest, host: Host): (r: Source)
    ensures r.graphics == s.graphics
    ensures OverlayConsistent(s) ==> OverlayConsistent(r) && |r.mapOverlays| <= 1
  {
    match test
    case AsWritten => ForEachFeatureAtCoordinate(s, c.coordinate, c.resolution, g => g, c.pixel, host).0
    case ClosingOnMiss => ForEachFeatureClosingOnMiss(s, c.coordinate, c.resolution, g => g, c.pixel, host).0
  }

  /** The source's state after a series of clicks, each handled by `test`. */
  function AfterClicks(s: Source, clicks: seq<Click>, test: HitTest, host: Host): Source
    decreases |clicks|
  {
    if clicks == [] then s
    else AfterClicks(AfterClick(s, clicks[0], test, host), clicks[1..], test, host)
  }

  /** However many clicks arrive, and with either hit test, the map holds at
      most one overlay layer, the one the source remembers, and the store is
      untouched. */
  lemma {:induction false} ClicksKeepAtMostOneOverlay(s: Source, clicks: seq<Click>, test: HitTest, host: Host)
    requires OverlayConsistent(s)
    ensures var r := AfterClicks(s, clicks, test, host);
            OverlayConsistent(r) && |r.mapOverlays| <= 1 && r.graphics == s.graphics
    decreases |clicks|
  {
    if clicks != [] {
      ClicksKeepAtMostOneOverlay(AfterClick(s, clicks[0], test, host), clicks[1..], test, host);
    }
  }

  /** A circle at (10, 10) with anchor (5, 5), at resolution 2, answers
      clicks in [0, 20] × [0, 20]; clicking its centre through the code's
      hit test selects it, and it is then painted with the highlight fill
      and its own radius and stroke. */
  lemma EndToEndCircleClick(host: Host)
    ensures var style := Circle(4.0, Some(Fill("#ffffff")), Some(Stroke("#000000", 1.0)), false, Point(5.0, 5.0));
            var g := Graphic(7, Point(10.0, 10.0), style);
            var s := Create(Single(g), None, None);
            var r := ForEachFeatureAtCoordinate(s, Point(10.0, 10.0), 2.0, x => x, None, host);
            var painted := ResolveStyle(g.style, r.0.selected == Some(g), r.0.highLightStyle);
            HitBox(g, 2.0) == Extent(0.0, 0.0, 20.0, 20.0) &&
            r.1 == Some(g) && r.0.selected == Some(g) &&
            painted == Circle(4.0, Some(Fill(HighlightColor)), Some(Stroke("#000000", 1.0)), false, Point(5.0, 5.0))
  {
    var style := Circle(4.0, Some(Fill("#ffffff")), Some(Stroke("#000000", 1.0)), false, Point(5.0, 5.0));
    var g := Graphic(7, Point(10.0, 10.0), style);
    assert Hittable(g, Point(10.0, 10.0), 2.0);
  }
}
