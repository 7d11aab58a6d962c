/** The state of one graphic layer source and its graphic store:
    `setGraphics`, `addGraphics`, `removeGraphics`, `clear` and
    `getGraphicsInExtent` of src/openlayers/overlay/Graphic.js. The host
    map's change notification (`update`/`changed`) is not modelled. */
module GraphicSource {
  import opened Options
  import opened Geometry
  import opened Styles

  /** A point graphic. `ref` stands for the JavaScript object's identity, so
      two distinct graphics with the same position and style stay distinct. */
  datatype Graphic = Graphic(ref: nat, position: Point, style: Style)

  /** What a caller passes to `setGraphics`/`addGraphics`: an array of
      graphics or a single graphic. */
  datatype GraphicsArg = Many(graphics: seq<Graphic>) | Single(graphic: Graphic)

  /** The overlay layer holding the one hit-clover graphic of a clicked sector. */
  datatype Overlay = Overlay(center: Point, style: Style)

  /** The source's fields. `mapOverlays` lists the overlay layers this source
      has added to the host map and not yet removed, in the order added. */
  datatype Source = Source(
    graphics: seq<Graphic>,
    selected: Option<Graphic>,
    hitGraphicLayer: Option<Overlay>,
    mapOverlays: seq<Overlay>,
    isHighLight: bool,
    highLightStyle: Option<Style>)

  /** `[graphics]` for a single graphic, a copy of the array otherwise. */
  function AsSequence(arg: GraphicsArg): (r: seq<Graphic>)
    ensures arg.Many? ==> r == arg.graphics
    ensures arg.Single? ==> r == [arg.graphic]
  {
    match arg
    case Many(gs) => gs
    case Single(g) => [g]
  }

  /** The constructor's own fields: the graphics normalised to an array,
      highlighting on unless the option says otherwise, nothing selected and
      no overlay. */
  function Create(graphics: GraphicsArg, highLightStyle: Option<Style>, isHighLight: Option<bool>): (s: Source)
    ensures s.graphics == AsSequence(graphics)
    ensures isHighLight.None? ==> s.isHighLight
    ensures isHighLight.Some? ==> s.isHighLight == isHighLight.value
    ensures s.highLightStyle == highLightStyle
    ensures s.selected.None? && s.hitGraphicLayer.None? && s.mapOverlays == []
  {
    Source(AsSequence(graphics), None, None, [], isHighLight.GetOr(true), highLightStyle)
  }

  /** `setGraphics`: the store becomes exactly the given graphics; the rest
      of the source is untouched (in particular a selected graphic stays
      selected even when it is no longer stored). */
  function SetGraphics(s: Source, arg: GraphicsArg): (r: Source)
    ensures arg.Many? ==> r.graphics == arg.graphics
    ensures arg.Single? ==> r.graphics == [arg.graphic]
    ensures r.(graphics := s.graphics) == s
  {
    s.(graphics := AsSequence(arg))
  }

  /** `addGraphics`: the given graphics are appended after the stored ones. */
  function AddGraphics(s: Source, arg: GraphicsArg): (r: Source)
    ensures |r.graphics| == |s.graphics| + |AsSequence(arg)|
    ensures r.graphics[..|s.graphics|] == s.graphics
    ensures r.graphics[|s.graphics|..] == AsSequence(arg)
    ensures r.(graphics := s.graphics) == s
  {
    s.(graphics := s.graphics + AsSequence(arg))
  }

  /** `removeGraphics`: the store is emptied, nothing else changes. */
  function RemoveGraphics(s: Source): (r: Source)
    ensures r.graphics == []
    ensures r.(graphics := s.graphics) == s
  {
    s.(graphics := [])
  }

  /** `clear` delegates to `removeGraphics`. */
  function Clear(s: Source): (r: Source)
    ensures r.graphics == []
    ensures r.(graphics := s.graphics) == s
  {
    RemoveGraphics(s)
  }

  /** A graphic's point geometry has its extent inside `e`. */
  predicate InExtent(g: Graphic, e: Extent) {
    ContainsExtent(e, PointExtent(g.position))
  }

  /** `a` is `b` with some elements dropped and the rest in their order. */
  predicate IsSubsequence(a: seq<Graphic>, b: seq<Graphic>)
    decreases |b|
  {
    if a == [] then true
    else if b == [] then false
    else if a[0] == b[0] then IsSubsequence(a[1..], b[1..])
    else IsSubsequence(a, b[1..])
  }

  /** The graphics of `gs` whose extent lies inside `e`, in store order. */
  function FilterInExtent(gs: seq<Graphic>, e: Extent): (r: seq<Graphic>)
    ensures |r| <= |gs|
    ensures forall g :: g in r <==> g in gs && InExtent(g, e)
    ensures forall g :: multiset(r)[g] == (if InExtent(g, e) then multiset(gs)[g] else 0)
    ensures IsSubsequence(r, gs)
  {
    if gs == [] then []
    else
      var rest := FilterInExtent(gs[1..], e);
      assert gs == [gs[0]] + gs[1..];
      if InExtent(gs[0], e) then [gs[0]] + rest else rest
  }

  /** `getGraphicsInExtent`: all stored graphics when no extent is given,
      else the order-preserving subsequence of those inside the extent. */
  function GetGraphicsInExtent(s: Source, extent: Option<Extent>): (r: seq<Graphic>)
    ensures extent.None? ==> r == s.graphics
    ensures extent.Some? ==> IsSubsequence(r, s.graphics)
    ensures extent.Some? ==> forall g :: g in r <==> g in s.graphics && InExtent(g, extent.value)
    ensures extent.Some? ==> forall g ::
              multiset(r)[g] == (if InExtent(g, extent.value) then multiset(s.graphics)[g] else 0)
  {
    match extent
    case None => s.graphics
    case Some(e) => FilterInExtent(s.graphics, e)
  }

  /** Filtering distributes over concatenation. */
  lemma {:induction false} FilterAppend(a: seq<Graphic>, b: seq<Graphic>, e: Extent)
    ensures FilterInExtent(a + b, e) == FilterInExtent(a, e) + FilterInExtent(b, e)
    decreases |a|
  {
    if a == [] {
      assert a + b == b;
    } else {
      assert (a + b)[1..] == a[1..] + b;
      FilterAppend(a[1..], b, e);
    }
  }

  /** Querying after an append sees the old answer followed by the answer
      for the appended graphics: appends never reorder what a query returns. */
  lemma AddThenQuery(s: Source, arg: GraphicsArg, extent: Option<Extent>)
    ensures GetGraphicsInExtent(AddGraphics(s, arg), extent) ==
            GetGraphicsInExtent(s, extent) + GetGraphicsInExtent(s.(graphics := AsSequence(arg)), extent)
  {
    if extent.Some? {
      FilterAppend(s.graphics, AsSequence(arg), extent.value);
    }
  }

  /** A series of `addGraphics` calls, one per argument, in order; only the
      store changes. */
  function AppendAll(s: Source, args: seq<GraphicsArg>): (r: Source)
    ensures r.(graphics := s.graphics) == s
    decreases |args|
  {
    if args == [] then s else AppendAll(AddGraphics(s, args[0]), args[1..])
  }

  /** The graphics of a series of arguments, each normalised to a sequence,
      laid end to end. */
  function Flatten(args: seq<GraphicsArg>): seq<Graphic>
    decreases |args|
  {
    if args == [] then [] else AsSequence(args[0]) + Flatten(args[1..])
  }

  /** After any series of appends, a query with no extent yields the old
      graphics and then every appended graphic in call order. */
  lemma {:induction false} AppendAllOrder(s: Source, args: seq<GraphicsArg>)
    ensures GetGraphicsInExtent(AppendAll(s, args), None) == s.graphics + Flatten(args)
    decreases |args|
  {
    if args != [] {
      AppendAllOrder(AddGraphics(s, args[0]), args[1..]);
      assert s.graphics + AsSequence(args[0]) + Flatten(args[1..]) == s.graphics + Flatten(args);
    }
  }

  /** Replacing the store forgets everything stored before: the result does
      not depend on the previous graphics. */
  lemma SetForgetsPrevious(s: Source, t: Source, arg: GraphicsArg)
    requires s.(graphics := t.graphics) == t
    ensures SetGraphics(s, arg) == SetGraphics(t, arg)
  {
  }

  /** Emptying then appending is the same as replacing. */
  lemma ClearThenAddIsSet(s: Source, arg: GraphicsArg)
    ensures AddGraphics(Clear(s), arg) == SetGraphics(s, arg)
  {
  }
}
