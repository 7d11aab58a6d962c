# Graphic layer source and kernel-density job parameter, in Dafny

This project models two parts of the SuperMap iClient JavaScript library and proves properties of them.

**The OpenLayers graphic layer source** (`ol.source.Graphic`) paints many point graphics onto one canvas. The model covers these parts:

- The **graphic store**: `setGraphics`, `addGraphics`, `removeGraphics`, `clear` and `getGraphicsInExtent`.
- The **hit tester**: `_forEachFeatureAtCoordinate`. It scans the store from the top down and skips hit-clover overlay graphics. It picks the first graphic whose box, its centre ± its style's anchor × resolution, holds the click.
- The **highlight controller**: `_highLight` and `_highLightClose`. It keeps the selected graphic. For clover-shaped graphics it opens a one-graphic overlay layer on the host map for the clicked sector. The sector is `index = ceil(angle / (a + s))`, `sAngle = (index − 1)(a + s)` and `eAngle = sAngle + a`.
- The **style resolver**: a selected circle or regular shape is painted with its fill replaced by `rgba(0, 153, 255, 1)`, unless a highlight style is configured.
- The **compositor**: the list of draws the canvas function issues. Each draw pairs a resolved style with the canvas pixel reached by the `scale` and `rotate` helpers and the centring offset.

**The kernel-density job parameter** (`SuperMap.KernelDensityJobParameter`) covers its documented defaults, `initialize`, `destroy`, and the static `toObject`. `toObject` writes `datasetName` under `tempObj.input` and every other enumerable property under `tempObj.analyst`.

The model is functional. A source is an immutable record: the store is a sequence and the overlay layer is an `Option`. The host map keeps a list of the overlay layers this source has added. Styles are one closed datatype with circle, regular-shape, clover, hit-clover and icon variants. Everything the code asks of the host map, and `Math.atan2`, `Math.cos` and `Math.sin`, are fields of `HostMap.Host`. These fields are `getPixelFromCoordinate`, the view centre, rotation and size, `atan2` in degrees, `cos` and `sin`, and none of them is interpreted. `Math.ceil` is modelled exactly, by `Geometry.Ceil`. Each graphic carries a `ref` number that stands for its object identity, because the code compares the selected graphic with `===`.

Where the code behaves differently from what a reader of its documentation might expect, the model follows the code:

- An atan2 answer is kept when positive and has 360 added otherwise. The result therefore lies in (0, 360], not [0, 360), and an answer of 0 becomes 360.
- A clover hit leaves `selected` unchanged (Graphic.js:246-288). So an overlay does not go together with a selected clover graphic. The model proves the bookkeeping invariant instead: the map holds exactly the overlay the source remembers, so at most one.
- `[].concat(undefined)` and `[undefined]` give a store holding `undefined`, not an empty store. The model has no undefined graphics (see Left out).
- In the as-written hit test, `_highLightClose` runs once for every non-matching graphic passed before a match, and it never runs on an empty store. Closing once after a complete miss is the evidently intended behaviour. Both versions are modelled; see Findings.
- `toObject` walks the instance with `for…in`. Every property of the class's object literal is enumerable, including the prototype methods `initialize` and `destroy`, so they land in `analyst` too. The model keeps them as `Method` values.

## Model

| member | source | states |
|---|---|---|
| Geometry.ScaleAbout | src/openlayers/overlay/Graphic.js:126-130 | the offset of the result from the centre is the offset of the input times the ratio; ratio 1 and the centre itself are fixed points |
| Geometry.ScaleInverse | src/openlayers/overlay/Graphic.js:126-130 | scaling by a non-zero ratio and then by its reciprocal about the same centre returns the original pixel |
| Geometry.RotateAbout | src/openlayers/overlay/Graphic.js:119-123 | rotation with cosine 1 and sine 0 is the identity, and the centre is fixed |
| Geometry.ScaleDistance | src/openlayers/overlay/Graphic.js:126-130 | scaling by a ratio multiplies the squared distance from the centre by the ratio squared |
| Geometry.RotationKeepsDistance | src/openlayers/overlay/Graphic.js:119-123 | when cos² + sin² = 1 the rotated pixel is as far from the centre as the original |
| Geometry.RotationInverse | src/openlayers/overlay/Graphic.js:119-123 | rotating by an angle and then by its opposite returns the original pixel |
| Geometry.PointExtentContained | src/openlayers/overlay/Graphic.js:310 | a point graphic's extent lies in a box exactly when the point does |
| Geometry.Ceil | src/openlayers/overlay/Graphic.js:257 | Math.ceil: the unique integer n with n − 1 < x ≤ n |
| Styles.ResolveStyle | src/openlayers/overlay/Graphic.js:71-99 | unselected graphics keep their style; a selected one takes the configured highlight style when present; otherwise a selected circle or regular shape differs from its own style only in its fill, which becomes the highlight colour; any other selected style is unchanged |
| Styles.SynthesizedHighlightStable | src/openlayers/overlay/Graphic.js:73-98 | the synthesised highlight copy keeps the marker's anchor, and synthesising again from the copy gives the same style |
| GraphicSource.Create | src/openlayers/overlay/Graphic.js:37-42 | the store is the given graphics as a sequence; highlighting defaults to on; nothing is selected and no overlay exists |
| GraphicSource.SetGraphics | src/openlayers/overlay/Graphic.js:177-183 | the store becomes exactly the given array, or the one-element sequence of a single graphic; every other field is unchanged |
| GraphicSource.SetForgetsPrevious | src/openlayers/overlay/Graphic.js:177-183 | the result of setGraphics does not depend on the previous store |
| GraphicSource.AddGraphics | src/openlayers/overlay/Graphic.js:190-195 | the old store is an unchanged prefix of the new one, and the given graphics follow in their order |
| GraphicSource.AppendAllOrder | src/openlayers/overlay/Graphic.js:190-195 | after any series of addGraphics calls, an unrestricted query returns the old graphics and then every added graphic in call order |
| GraphicSource.AddThenQuery | src/openlayers/overlay/Graphic.js:190-195 | a query after an append returns the old answer followed by the answer for the appended graphics |
| GraphicSource.RemoveGraphics | src/openlayers/overlay/Graphic.js:209-212 | the store is empty and nothing else changes |
| GraphicSource.Clear | src/openlayers/overlay/Graphic.js:201-203 | the store is empty and nothing else changes |
| GraphicSource.ClearThenAddIsSet | src/openlayers/overlay/Graphic.js:201-212 | clearing and then appending gives the same source as replacing |
| GraphicSource.FilterInExtent | src/openlayers/overlay/Graphic.js:309-315 | the result is a subsequence of the store holding exactly the graphics inside the extent, each as often as in the store |
| GraphicSource.FilterAppend | src/openlayers/overlay/Graphic.js:309-315 | filtering by extent distributes over concatenation |
| GraphicSource.GetGraphicsInExtent | src/openlayers/overlay/Graphic.js:300-316 | with no extent the whole store in insertion order; with one, the order-preserving subsequence of graphics whose extent it contains, with their multiplicities, and no others |
| Highlighting.NormalizeAngle | src/openlayers/overlay/Graphic.js:255 | the result is the angle or the angle plus 360, and lies in (0, 360] for any atan2 answer in [−180, 180] |
| Highlighting.ClickAngle | src/openlayers/overlay/Graphic.js:251-255 | the click angle about the graphic's centre pixel, with a missing click pixel taken as [0, 0], lies in (0, 360] when atan2 answers within [−180, 180] |
| Highlighting.Bracket | src/openlayers/overlay/Graphic.js:257-259 | if the quotient lies in (k, k + 1] then k·w and k·w + w bracket the angle, below for positive w and above for negative w |
| Highlighting.CeilBounds | src/openlayers/overlay/Graphic.js:257-259 | (ceil(angle/w) − 1)·w and that plus w bracket the angle, with the bounds swapped when w is negative |
| Highlighting.SectorAt | src/openlayers/overlay/Graphic.js:257-272 | no sector exactly when a + s = 0; otherwise sAngle = (index − 1)(a + s), eAngle = sAngle + a, and sAngle < angle ≤ sAngle + a + s for positive a + s (reversed for negative); the index is at least 1 for positive angles |
| Highlighting.SectorExample | src/openlayers/overlay/Graphic.js:257-272 | sectors of 60° with no gap: a click at 95° gives index 2, start 60°, end 120° |
| Highlighting.SectorCoversGap | src/openlayers/overlay/Graphic.js:257-272 | with non-negative width and gap the sector's end lies between its start and the start of the next sector |
| Highlighting.HitCloverStyle | src/openlayers/overlay/Graphic.js:261-281 | the overlay style is a hit-clover with red stroke, blue fill and the clover's radius and width, or with the stroke, fill, radius and width of a configured hit-clover highlight style; its start is the sector boundary (ceil(angle/(a + s)) − 1)(a + s) and its end that plus the clover's own width, so the angles bracket the click from below for positive a + s and from above for negative a + s; NaN angles when a + s = 0 |
| Highlighting.DropOverlay | src/openlayers/overlay/Graphic.js:247-250 | the remembered overlay, if any, is removed from the map and forgotten; nothing else changes |
| Highlighting.HighLight | src/openlayers/overlay/Graphic.js:245-293 | a non-clover hit becomes the selection and nothing else changes; a clover hit leaves the selection alone, removes the old overlay and then adds exactly one new overlay for the clicked sector at the graphic's centre; the overlay bookkeeping stays consistent, with one overlay after a clover hit |
| Highlighting.CloverHitsKeepOneOverlay | src/openlayers/overlay/Graphic.js:246-288 | any number of consecutive clover hits leaves exactly one overlay on the map and the selection unchanged |
| Highlighting.HighLightClose | src/openlayers/overlay/Graphic.js:227-234 | afterwards nothing is selected and no overlay is remembered or left on the map |
| Highlighting.CloseIdempotent | src/openlayers/overlay/Graphic.js:227-234 | closing twice is closing once |
| HitTesting.HitBox | src/openlayers/overlay/Graphic.js:148-157 | a coordinate is in the box exactly when it is within anchor × resolution of the centre on each axis, borders included; the centre is in it exactly when both half-sizes are non-negative |
| HitTesting.TopmostHitBelow | src/openlayers/overlay/Graphic.js:143-162 | the highest index below n whose graphic is not a hit-clover and whose box holds the click, or none when no such index exists |
| HitTesting.TopmostHit | src/openlayers/overlay/Graphic.js:143-162 | the highest-index hittable graphic of the store, or none when no graphic is hittable |
| HitTesting.ReversePriority | src/openlayers/overlay/Graphic.js:143-162 | when two graphics both hold the click, the later one or one above it wins |
| HitTesting.ScanAsWritten | src/openlayers/overlay/Graphic.js:143-167 | the scan returns the callback's answer for the topmost hittable graphic, or nothing; with highlighting off the state is untouched; the store and the overlay bookkeeping stay consistent |
| HitTesting.ScanHighlightsHit | src/openlayers/overlay/Graphic.js:143-167 | as written, a hit runs `_highLight` on the topmost hittable graphic, on a state that was closed first exactly when a non-sector graphic above it was passed |
| HitTesting.ScanHighlightsMiss | src/openlayers/overlay/Graphic.js:143-167 | as written, a complete miss leaves the state closed exactly when some non-sector graphic was passed, and untouched otherwise |
| HitTesting.ForEachFeatureAtCoordinate | src/openlayers/overlay/Graphic.js:141-168 | as written: the callback's answer for the topmost hittable graphic or undefined; a hit highlights that graphic (a non-clover one becomes the selection) after a close when a graphic above it was passed; a miss closes the highlight unless the store holds only overlay sectors; no state change when highlighting is off; at most one overlay on the map |
| HitTesting.AsWrittenDependsOnUntouchedGraphic | src/openlayers/overlay/Graphic.js:157-165 | two stores that differ only in the order of a graphic the click misses give different overlay states for the same click on the same circle |
| HitTesting.ForEachFeatureClosingOnMiss | src/openlayers/overlay/Graphic.js:141-168 | corrected scan: the same answer as the original; a hit runs `_highLight` on the topmost hittable graphic of the untouched state, so a non-clover one becomes the selection; a complete miss is exactly `_highLightClose` and clears the selection and the overlay |
| HitTesting.ClosingOnMissDependsOnlyOnTopHit | src/openlayers/overlay/Graphic.js:141-168 | with the corrected scan, the state after a click depends only on the previous state and the graphic hit |
| HitTesting.ClosingOnMissIgnoresUntouchedGraphic | src/openlayers/overlay/Graphic.js:157-165 | the corrected scan gives the same answer and overlay on both stores of the as-written counterexample |
| HitTesting.AfterClick | src/openlayers/overlay/Graphic.js:141-168 | one click, handled by the as-written or the corrected hit test, leaves the store alone and keeps the overlay bookkeeping consistent with at most one overlay |
| HitTesting.ClicksKeepAtMostOneOverlay | src/openlayers/overlay/Graphic.js:141-168 | after any series of clicks, handled by the as-written or by the corrected hit test, the map holds at most one overlay, the one the source remembers, and the store is unchanged |
| HitTesting.EndToEndCircleClick | src/openlayers/overlay/Graphic.js:152-161 | a circle at (10, 10) with anchor (5, 5) at resolution 2 has box [0, 20] × [0, 20]; clicking its centre through the code's hit test selects it, and it is then painted with the highlight fill and its own radius and stroke |
| Compositor.CanvasOffset | src/openlayers/overlay/Graphic.js:58-63 | the centring offset is half the difference between the canvas size and the map size, whatever the pixel ratio |
| Compositor.CanvasPixel | src/openlayers/overlay/Graphic.js:103-110 | with no rotation and ratio 1 a graphic lands at its view pixel plus the offset |
| Compositor.CanvasPixelDistance | src/openlayers/overlay/Graphic.js:103-110 | with a true rotation (cos² + sin² = 1) a graphic lands at the ratio times its view distance from the shifted centre pixel |
| Compositor.CanvasPixelAtRest | src/openlayers/overlay/Graphic.js:103-110 | with no rotation, ratio 1 and no offset a coordinate is drawn exactly at its view pixel |
| Compositor.Render | src/openlayers/overlay/Graphic.js:68-114 | one draw per graphic inside the extent, in store order; each draw's style is the resolver's choice, so only the selected graphic may change style; each draw's pixel is the graphic's canvas pixel |
| Compositor.RenderAtRest | src/openlayers/overlay/Graphic.js:103-110 | with no rotation, ratio 1 and a canvas the size of the map, every graphic is drawn at its view pixel |
| Compositor.DrawAll | src/openlayers/overlay/Graphic.js:70-114 | the walk over the graphics yields one draw per graphic, the i-th pairing the i-th graphic's resolved style with its canvas pixel |
| Compositor.DrawAllAppend | src/openlayers/overlay/Graphic.js:70-114 | drawing a concatenation draws the first part and then the second |
| Compositor.RenderAfterAdd | src/openlayers/overlay/Graphic.js:68-114 | after an append, the draws are the old draws followed by the draws of the appended graphics, so new graphics paint on top |
| KernelDensityJob.Initialize | src/common/iServer/KernelDensityJobParameter.js:78-83 | without options every property reads its default; with options each option overrides its property and every other property keeps its default; the instance has exactly the default properties plus the given options, and no others |
| KernelDensityJob.DefaultsWithoutOptions | src/common/iServer/KernelDensityJobParameter.js:21-81 | the defaults are resolution 80, radius 300, method 0, meshType 0, units Meter, Meter and SquareMile, and empty datasetName, query and fields |
| KernelDensityJob.Destroy | src/common/iServer/KernelDensityJobParameter.js:89-100 | the ten documented properties read null; every other property reads as before |
| KernelDensityJob.DestroyIdempotent | src/common/iServer/KernelDensityJobParameter.js:89-100 | destroying twice is destroying once |
| KernelDensityJob.VisitAll | src/common/iServer/KernelDensityJobParameter.js:105-113 | after the loop has visited every property in any order, datasetName sits in the input record and every other property in the analyst record |
| KernelDensityJob.ToObject | src/common/iServer/KernelDensityJobParameter.js:104-114 | input becomes the existing truthy input object, or a fresh one, plus datasetName with its value; analyst becomes the existing truthy analyst object, or a fresh one, plus every other property with its value; datasetName never reaches analyst unless it was already there; no other key of tempObj changes |
| KernelDensityJob.ToObjectAfterDestroy | src/common/iServer/KernelDensityJobParameter.js:104-114 | serialising a destroyed parameter into an empty object gives a null datasetName under input and nulls for the other nine documented properties under analyst |

## Findings

| source | as written | input that shows it | evidently intended | confidence | as-written member | corrected member |
|---|---|---|---|---|---|---|
| src/openlayers/overlay/Graphic.js:163-165 | `_highLightClose` runs inside the scan for every non-matching graphic passed before a match. It does not run when the store is empty. | An overlay is open. A circle at (0, 0) is hit by a click at (0, 0), and another circle at (100, 100) misses. With the missed circle drawn below, the overlay survives the click. With it drawn above, the overlay is closed. | The highlight is closed once, after no graphic matched, so a click's effect depends only on the graphic it hits | medium; not executed | HitTesting.AsWrittenDependsOnUntouchedGraphic | HitTesting.ForEachFeatureClosingOnMiss |

`HitTesting.ClosingOnMissDependsOnlyOnTopHit` proves the intended property of the corrected scan. `HitTesting.AfterClicks` and `HitTesting.ClicksKeepAtMostOneOverlay` are proved for either scan (`HitTest.AsWritten` and `HitTest.ClosingOnMiss`).

## Left out

- Canvas allocation, `ol.render.toContext`, `setStyle`/`drawGeometry` and the returned canvas (Graphic.js:62-67, 100-102, 111-115) are raster output. The compositor returns the list of draws instead.
- `Math.cos`, `Math.sin` and `Math.atan2` are uninterpreted fields of `HostMap.Host`. Floating-point rounding is not modelled, and all numbers are reals.
- The `map.on('click')` wiring for `onClick` (Graphic.js:47-55) is host event plumbing. The `_forEachFeatureAtCoordinate` it calls is modelled.
- `update()` and `changed()` notifications (Graphic.js:182, 194, 211, 218-220, 233, 291) only mark the layer dirty.
- `map.addLayer` and `map.removeLayer` are reduced to appending to, and removing the first occurrence from, the source's `mapOverlays` list. Other layers of the map are not modelled.
- The `super(...)` pass-through of attributions, logo, projection, ratio, resolutions and state (Graphic.js:28-36) has no logic. So has `this.map`.
- OpenLayers style and geometry classes are replaced by the `Styles.Style` datatype. Its consequences:
  - A style's anchor is taken as given, not derived from its size.
  - The `CloverShape` and `HitCloverShape` classes are not part of this model, so their subclass relationships are not modelled. They are disjoint variants.
  - Style options the copies drop, such as an atlas manager, are not represented.
- Graphics whose geometry is not a point are not modelled.
- `undefined` or `null` graphics are not modelled. The code would store them (`[graphics]`, `[].concat(options.graphics)`) and then fail on `getGeometry()`/`getStyle()`.
- A graphic without a style is not modelled. The code would throw on `getAnchor()`.
- The callback of `_forEachFeatureAtCoordinate` is a pure function of the graphic. Its side effects are not modelled.
- The `resolution` and `projection` arguments of the canvas function are unused by the code and are dropped.
- Compositor.Render: requires a positive pixel ratio, which OpenLayers always supplies. With a zero ratio the code computes NaN offsets.
- Compositor.CanvasOffset: requires a positive pixel ratio for the same reason.
- `isHighLight` and `highLightStyle` options take any JavaScript value in the code. They are modelled as a boolean and an optional style.
- `setGraphics` empties the previous internal array in place (Graphic.js:179). This is visible only to code that holds that private array, so it is left out; the model has value semantics.
- `SuperMap.Class` and `SuperMap.Util.extend` are not part of this model. `initialize` is assumed to copy every given option onto the instance. Values JavaScript can hold but this object never uses, such as undefined and NaN, have no `Value` variant.
- KernelDensityJob.ToObject: requires that an existing truthy `input` or `analyst` entry is a plain object. Adding a property to a primitive (a string, number or boolean) does nothing or throws, depending on the engine's strict mode. A function would accept the property, but the model's `Method` value carries no fields to add to, and the library's callers pass a fresh `{}`.
- The enumeration order of `for…in` is not modelled. `VisitAll` proves its result for every visiting order.
