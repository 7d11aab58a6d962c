/** Point styles of the graphic layer, as one closed variant in place of the
    OpenLayers and SuperMap style classes (circle, regular shape, clover,
    hit-clover), plus the style chosen for the selected graphic when the
    layer is painted. */
module Styles {
  import opened Options
  import opened Geometry

  datatype Fill = Fill(color: string)

  datatype Stroke = Stroke(color: string, width: real)

  /** A JavaScript number that the source can produce as NaN (by dividing
      by zero); every other number in the model is finite. */
  datatype JsNumber = Finite(value: real) | NaN

  /** The image style of a graphic. `anchor` is the style's rendering anchor
      (`getAnchor()`), which OpenLayers derives from the shape's size; it is
      kept as given. A hit-clover style is only ever drawn on the overlay
      layer and is never measured by the hit test, so it carries no anchor. */
  datatype Style =
    | Circle(radius: real, fill: Option<Fill>, stroke: Option<Stroke>,
             snapToPixel: bool, anchor: Point)
    | RegularShape(radius: real, radius2: Option<real>, points: nat, angle: real,
                   rotation: real, rotateWithView: bool, fill: Option<Fill>,
                   stroke: Option<Stroke>, snapToPixel: bool, anchor: Point)
    | Clover(radius: real, angle: real, spaceAngle: real, fill: Option<Fill>,
             stroke: Option<Stroke>, anchor: Point)
    | HitClover(radius: real, angle: real, sAngle: JsNumber, eAngle: JsNumber,
                fill: Option<Fill>, stroke: Option<Stroke>)
    | Icon(anchor: Point)

  /** The fill forced onto a selected circle or regular shape. */
  const HighlightColor: string := "rgba(0, 153, 255, 1)"

  predicate HasFill(s: Style) {
    !s.Icon?
  }

  /** `a` is `b` with at most its fill replaced: same variant, same
      geometry, same stroke, same anchor. */
  predicate DiffersOnlyInFill(a: Style, b: Style) {
    HasFill(a) && HasFill(b) && a.(fill := b.fill) == b
  }

  /** The style a graphic is painted with. Unselected graphics keep their
      own style; the selected one takes the configured highlight style when
      there is one, else a copy of its circle or regular shape whose fill is
      the highlight colour, else its own style. */
  function ResolveStyle(own: Style, isSelected: bool, highLightStyle: Option<Style>): (r: Style)
    ensures !isSelected ==> r == own
    ensures isSelected && highLightStyle.Some? ==> r == highLightStyle.value
    ensures isSelected && highLightStyle.None? && (own.Circle? || own.RegularShape?) ==>
              DiffersOnlyInFill(r, own) && r.fill == Some(Fill(HighlightColor))
    ensures isSelected && highLightStyle.None? && !(own.Circle? || own.RegularShape?) ==> r == own
  {
    if !isSelected then own
    else if highLightStyle.Some? then highLightStyle.value
    else match own
      case Circle(radius, _, stroke, snap, anchor) =>
        Circle(radius, Some(Fill(HighlightColor)), stroke, snap, anchor)
      case RegularShape(radius, radius2, points, angle, rotation, rotateWithView, _, stroke, snap, anchor) =>
        RegularShape(radius, radius2, points, angle, rotation, rotateWithView,
                     Some(Fill(HighlightColor)), stroke, snap, anchor)
      case _ => own
  }

  /** Without a configured highlight style, the synthesised copy keeps the
      marker's anchor, and synthesising from that copy again gives the same
      style. */
  lemma {:induction false} SynthesizedHighlightStable(own: Style)
    requires !own.HitClover?
    ensures ResolveStyle(ResolveStyle(own, true, None), true, None) == ResolveStyle(own, true, None)
    ensures ResolveStyle(own, true, None).anchor == own.anchor
  {
    match own
    case Circle(_, _, _, _, _) =>
    case RegularShape(_, _, _, _, _, _, _, _, _, _) =>
    case Clover(_, _, _, _, _, _) =>
    case Icon(_) =>
  }
}
