/** What `canvasFunctionInternal_` of src/openlayers/overlay/Graphic.js
    draws: for every graphic inside the requested extent, in store order,
    the style it is painted with and the canvas pixel it is painted at.
    Allocating the canvas and rasterising the draws are not modelled. */
module Compositor {
  import opened Options
  import opened Geometry
  import opened Styles
  import opened GraphicSource
  import opened HostMap

  /** One point drawn on the canvas. */
  datatype Draw = Draw(style: Style, pixel: Point)

  /** The shift that centres the view on the canvas: the canvas is `size`
      scaled by the pixel ratio, the view is the map size scaled the same
      way, and half their difference is taken back out of the ratio. */
  function CanvasOffset(size: Point, pixelRatio: real, host: Host): (o: Point)
    requires pixelRatio > 0.0
    ensures o == Point((size.x - host.mapSize.x) / 2.0, (size.y - host.mapSize.y) / 2.0)
  {
    var canvasWidth, canvasHeight := size.x * pixelRatio, size.y * pixelRatio;
    var viewWidth, viewHeight := host.mapSize.x * pixelRatio, host.mapSize.y * pixelRatio;
    assert (canvasWidth - viewWidth) / 2.0 / pixelRatio == (size.x - host.mapSize.x) / 2.0;
    assert (canvasHeight - viewHeight) / 2.0 / pixelRatio == (size.y - host.mapSize.y) / 2.0;
    Point((canvasWidth - viewWidth) / 2.0 / pixelRatio, (canvasHeight - viewHeight) / 2.0 / pixelRatio)
  }

  function Translate(p: Point, shift: Point): Point {
    Point(p.x + shift.x, p.y + shift.y)
  }

  /** The canvas pixel of a map coordinate: its view pixel scaled by the
      pixel ratio about the view centre's pixel, rotated back by the view's
      rotation about that pixel, then shifted by the canvas offset. */
  function CanvasPixel(coordinate: Point, pixelRatio: real, offset: Point, host: Host): (r: Point)
    ensures var rotation := -host.viewRotation;
            host.cos(rotation) == 1.0 && host.sin(rotation) == 0.0 && pixelRatio == 1.0 ==>
              r == Translate(host.pixelOf(coordinate), offset)
  {
    var pixel := host.pixelOf(coordinate);
    var rotation := -host.viewRotation;
    var center := host.pixelOf(host.viewCenter);
    var scaled := ScaleAbout(pixel, center, pixelRatio);
    var rotated := RotateAbout(scaled, host.cos(rotation), host.sin(rotation), center);
    Translate(rotated, offset)
  }

  /** When cos and sin answer consistently, a graphic is drawn `pixelRatio`
      times as far from the shifted centre pixel as its view pixel is from
      the centre pixel. */
  lemma {:induction false} CanvasPixelDistance(coordinate: Point, pixelRatio: real, offset: Point, host: Host)
    requires host.cos(-host.viewRotation) * host.cos(-host.viewRotation) +
             host.sin(-host.viewRotation) * host.sin(-host.viewRotation) == 1.0
    ensures var center := host.pixelOf(host.viewCenter);
            SquaredDistance(CanvasPixel(coordinate, pixelRatio, offset, host), Translate(center, offset)) ==
            pixelRatio * pixelRatio * SquaredDistance(host.pixelOf(coordinate), center)
  {
    var pixel := host.pixelOf(coordinate);
    var rotation := -host.viewRotation;
    var center := host.pixelOf(host.viewCenter);
    var scaled := ScaleAbout(pixel, center, pixelRatio);
    var rotated := RotateAbout(scaled, host.cos(rotation), host.sin(rotation), center);
    assert CanvasPixel(coordinate, pixelRatio, offset, host) == Translate(rotated, offset);
    calc {
      SquaredDistance(Translate(rotated, offset), Translate(center, offset));
      { TranslateKeepsDistance(rotated, center, offset); }
      SquaredDistance(rotated, center);
      { RotationKeepsDistance(scaled, host.cos(rotation), host.sin(rotation), center); }
      SquaredDistance(scaled, center);
      { ScaleDistance(pixel, center, pixelRatio); }
      pixelRatio * pixelRatio * SquaredDistance(pixel, center);
    }
  }

  /** Shifting two points by the same offset keeps their distance. */
  lemma TranslateKeepsDistance(p: Point, q: Point, shift: Point)
    ensures SquaredDistance(Translate(p, shift), Translate(q, shift)) == SquaredDistance(p, q)
  {
  }

  /** The draws of one render request. One draw per graphic inside the
      extent, in store order, so later graphics paint over earlier ones;
      only the selected graphic may be painted with a style other than its
      own, and that style is the one the style resolver picks. */
  function Render(s: Source, extent: Extent, pixelRatio: real, size: Point, host: Host): (r: seq<Draw>)
    requires pixelRatio > 0.0
    ensures var visible := GetGraphicsInExtent(s, Some(extent));
            |r| == |visible| &&
            forall i :: 0 <= i < |r| ==>
              r[i].style == ResolveStyle(visible[i].style, s.selected == Some(visible[i]), s.highLightStyle)
    ensures var visible := GetGraphicsInExtent(s, Some(extent));
            forall i :: 0 <= i < |r| && r[i].style != visible[i].style ==> s.selected == Some(visible[i])
    ensures var visible := GetGraphicsInExtent(s, Some(extent));
            forall i :: 0 <= i < |r| ==>
              r[i].pixel == CanvasPixel(visible[i].position, pixelRatio, CanvasOffset(size, pixelRatio, host), host)
  {
    var offset := CanvasOffset(size, pixelRatio, host);
    DrawAll(GetGraphicsInExtent(s, Some(extent)), s.selected, s.highLightStyle, pixelRatio, offset, host)
  }

  /** The draws of the canvas function's walk over the graphics, in order:
      each graphic painted with its resolved style at its canvas pixel. */
  function DrawAll(gs: seq<Graphic>, selected: Option<Graphic>, highLightStyle: Option<Style>,
                   pixelRatio: real, offset: Point, host: Host): (r: seq<Draw>)
    ensures |r| == |gs|
    ensures forall i :: 0 <= i < |gs| ==>
              r[i] == Draw(ResolveStyle(gs[i].style, selected == Some(gs[i]), highLightStyle),
                           CanvasPixel(gs[i].position, pixelRatio, offset, host))
    decreases |gs|
  {
    if gs == [] then []
    else
      var g := gs[0];
      [Draw(ResolveStyle(g.style, selected == Some(g), highLightStyle), CanvasPixel(g.position, pixelRatio, offset, host))] +
      DrawAll(gs[1..], selected, highLightStyle, pixelRatio, offset, host)
  }

  /** With no rotation, a pixel ratio of 1 and a canvas the size of the map,
      every graphic is drawn exactly at its view pixel. */
  lemma RenderAtRest(s: Source, extent: Extent, host: Host)
    requires host.cos(-host.viewRotation) == 1.0 && host.sin(-host.viewRotation) == 0.0
    ensures var visible := GetGraphicsInExtent(s, Some(extent));
            var r := Render(s, extent, 1.0, host.mapSize, host);
            forall i :: 0 <= i < |r| ==> r[i].pixel == host.pixelOf(visible[i].position)
  {
    var visible := GetGraphicsInExtent(s, Some(extent));
    var r := Render(s, extent, 1.0, host.mapSize, host);
    var offset := CanvasOffset(host.mapSize, 1.0, host);
    assert offset == Point(0.0, 0.0);
    forall i | 0 <= i < |r|
      ensures r[i].pixel == host.pixelOf(visible[i].position)
    {
      CanvasPixelAtRest(visible[i].position, host);
    }
  }

  /** With no rotation, a pixel ratio of 1 and no offset, a coordinate is
      drawn at its view pixel. */
  lemma CanvasPixelAtRest(coordinate: Point, host: Host)
    requires host.cos(-host.viewRotation) == 1.0 && host.sin(-host.viewRotation) == 0.0
    ensures CanvasPixel(coordinate, 1.0, Point(0.0, 0.0), host) == host.pixelOf(coordinate)
  {
    assert Translate(host.pixelOf(coordinate), Point(0.0, 0.0)) == host.pixelOf(coordinate);
  }

  /** Drawing a concatenation draws the first part, then the second. */
  lemma DrawAllAppend(a: seq<Graphic>, b: seq<Graphic>, selected: Option<Graphic>, highLightStyle: Option<Style>,
                      pixelRatio: real, offset: Point, host: Host)
    ensures DrawAll(a + b, selected, highLightStyle, pixelRatio, offset, host) ==
            DrawAll(a, selected, highLightStyle, pixelRatio, offset, host) +
            DrawAll(b, selected, highLightStyle, pixelRatio, offset, host)
  {
    var all := DrawAll(a + b, selected, highLightStyle, pixelRatio, offset, host);
    var left := DrawAll(a, selected, highLightStyle, pixelRatio, offset, host);
    var right := DrawAll(b, selected, highLightStyle, pixelRatio, offset, host);
    forall i | 0 <= i < |all|
      ensures all[i] == (left + right)[i]
    {
      if i < |a| {
        assert (a + b)[i] == a[i];
      } else {
        assert (a + b)[i] == b[i - |a|];
      }
    }
  }

  /** Appending graphics appends their draws after the existing ones: new
      graphics are painted on top. */
  lemma {:induction false} RenderAfterAdd(s: Source, arg: GraphicsArg, extent: Extent, pixelRatio: real, size: Point, host: Host)
    requires pixelRatio > 0.0
    ensures Render(AddGraphics(s, arg), extent, pixelRatio, size, host) ==
            Render(s, extent, pixelRatio, size, host) +
            Render(s.(graphics := AsSequence(arg)), extent, pixelRatio, size, host)
  {
    AddThenQuery(s, arg, Some(extent));
    var offset := CanvasOffset(size, pixelRatio, host);
    var a := GetGraphicsInExtent(s, Some(extent));
    var b := GetGraphicsInExtent(s.(graphics := AsSequence(arg)), Some(extent));
    DrawAllAppend(a, b, s.selected, s.highLightStyle, pixelRatio, offset, host);
  }
}
