# Inkscape markers, SVG text content, POV-Ray export and the DMPL rewrite — a Dafny model

This project models four small parts of Inkscape and proves properties about them.

- **`SPMarker`** (`src/marker.cpp`), split over five modules:
  - `MarkerAttributes`: how `set` parses the eight marker attributes, how `build` reads them all, and how `write` puts them back.
  - `MarkerFit`: the child-to-parent transform `update` computes.
  - `Markers`: the class `Marker` itself and its table of views. This table lists, per shape key, the drawing items that show the marker's instances. It also covers `update`'s stamping of child transforms, the view operations (`sp_marker_show_dimension`, `sp_marker_show_instance`, `sp_marker_hide`, `sp_marker_view_remove`, `release`) and the decision and copy step of `sp_marker_fork_if_necessary`.
  - `Geometry` and `DrawingBackend`: the affine maps and the rendering backend these work on.
- **`CString::onReadContent`** (`src/sp-string.cpp`), in module `SvgString`. It turns an XML text node into an `SPString`'s text under `xml:space="preserve"` and under the default whitespace rule.
- **The POV-Ray exporter** (`src/extension/internal/pov-out.cpp`), in modules `PovPrism` (the specification functions) and `PovOut` (the class `PovOutput` with its buffer, counters and extent). It covers:
  - the tree search `findElementsByTagName`;
  - the walk that hands every item with an `id` to `doCurve`;
  - each shape's prism: the segment counting, node and segment counters, separators and bounding box;
  - the union of all shapes;
  - `reset`, and the order of header, curves and tail that `saveDocument` produces.
- **The HPGL-to-DMPL rewrite** of the plotter extension (`share/extensions/plotter.py`), in module `Plotter`. It uses Python's `str.replace` semantics (leftmost, non-overlapping) and the greedy `{1,2}` of the pen-select regular expression.

Some things are parameters of the model rather than parts of it:

- The number readers and writers the marker code calls (`g_ascii_strtod`, `sp_svg_number_read_f`, `SVGLength::read`, `sp_repr_set_svg_double`, `sp_repr_set_css_double`) are passed in as a `NumberSyntax` value.
- The round trips through them are proved for any reader and writer that invert each other (`RoundTrips`).
- The exporter's number formatting `dstr` and its fixed comment and keyword lines are a `Format` value. `PovText` holds the lines of `pov-out.cpp` themselves, and everything about the exporter is proved for any text.

Where the code and its description differ, the model follows the code:

- `preserveAspectRatio` skips leading spaces to find the keyword's extent but copies the keyword from the start of the value (`memcpy (c, value, len)`). So a value with leading spaces is never accepted, and `AspectLeadingSpaceRejected` proves this.
- `update` computes no alignment offset: the offsets are commented out in the source. So the child transform is a translation by the reference point followed by a scale, whatever the alignment.

## Model

| member | source | states |
|---|---|---|
| `Geometry.FromXYWH` | src/marker.cpp:327 | the viewport rectangle is normalised: its width and height are the absolute values of the marker size |
| `Geometry.ThenApplies` | src/marker.cpp:410-411 | 2geom's product `A * B` maps a point by `A` first and then by `B` |
| `Geometry.TranslateThenScale` | src/marker.cpp:410-411 | translate-then-scale is the matrix `(sx, 0, 0, sy, tx*sx, ty*sy)` and maps `p` to `((p.x+tx)*sx, (p.y+ty)*sy)` |
| `MarkerAttributes.ParseMarkerUnits` | src/marker.cpp:126-140 | the value is set exactly for the two keywords; the units are userSpaceOnUse exactly for that keyword, strokeWidth otherwise |
| `MarkerAttributes.WriteMarkerUnits` | src/marker.cpp:441-449 | an attribute is written exactly when the field is set; otherwise it is removed |
| `MarkerAttributes.MarkerUnitsRoundTrip` | src/marker.cpp:441-449 | reading back what `write` produced gives the same field, for every state `set` can reach |
| `MarkerAttributes.ParseOrient` | src/marker.cpp:162-177 | "auto" sets auto with angle 0; a number read by the reader sets that angle; anything else leaves the field unset and zero |
| `MarkerAttributes.WriteOrient` | src/marker.cpp:475-483 | the attribute is written exactly when orient is set |
| `MarkerAttributes.OrientRoundTrip` | src/marker.cpp:475-483 | writing and re-reading a reachable orient gives it back, given number syntax that round-trips |
| `MarkerAttributes.ParseLength` | src/marker.cpp:142-160 | a length is set exactly when the value reads as a length; it then has that value, else the default (0 for refX/refY, 3 for markerWidth/markerHeight) |
| `MarkerAttributes.WriteLength` | src/marker.cpp:451-473 | a length is written exactly when set |
| `MarkerAttributes.LengthRoundTrip` | src/marker.cpp:451-473 | writing and re-reading a length gives it back |
| `MarkerAttributes.SkipSeparators` | src/marker.cpp:191-193 | what the separator loop leaves of the text; `SkipSeparatorsShape` shows it drops exactly the leading commas and spaces |
| `MarkerAttributes.ReadViewBoxFields` | src/marker.cpp:179-211 | the four numbers read in turn, skipping commas and spaces after each of the first three; `ParseViewBox` and `ScanViewBox` are stated in terms of them |
| `MarkerAttributes.SkipSeparatorsShape` | src/marker.cpp:191-211 | the separator loop drops exactly a leading run of commas and spaces, and leaves a suffix that starts with neither |
| `MarkerAttributes.SkipSeparatorLoop` | src/marker.cpp:191-193 | the pointer loop stops where `SkipSeparators` says |
| `MarkerAttributes.ParseViewBox` | src/marker.cpp:179-220 | a viewBox is set exactly when the value is present and the third and fourth numbers read are both positive |
| `MarkerAttributes.ViewBoxGeometry` | src/marker.cpp:213-216 | an accepted viewBox starts at (x, y) and has the width and height read, both positive |
| `MarkerAttributes.ScanViewBox` | src/marker.cpp:179-220 | the pointer-advancing parse computes `ParseViewBox` |
| `MarkerAttributes.SkipSpaces` | src/marker.cpp:237-243 | stops at the first non-space at or after `i`, or at the end |
| `MarkerAttributes.TokenEnd` | src/marker.cpp:245-249 | stops at the first space at or after `i`, or at the end |
| `MarkerAttributes.AlignName` | src/marker.cpp:262-281 | every alignment keyword is 4 to 8 characters and does not start with a space |
| `MarkerAttributes.AlignFromToken` | src/marker.cpp:262-284 | a recognised token is exactly the name of the alignment returned |
| `MarkerAttributes.AlignTokenInverse` | src/marker.cpp:262-284 | every alignment's name is recognised as that alignment |
| `MarkerAttributes.ParseAspectRatio` | src/marker.cpp:222-306 | a rejected value leaves the defaults: unset, none, meet |
| `MarkerAttributes.ClipAfter` | src/marker.cpp:286-300 | after the keyword: spaces, then nothing or "meet" (meet), "slice" (slice), anything else rejected; `AspectAcceptedShape` and `AspectOfKeyword` state this for the whole value |
| `MarkerAttributes.AspectLeadingSpaceRejected` | src/marker.cpp:235-259 | a value starting with a space is always rejected, because the keyword is copied from the value's start |
| `MarkerAttributes.AspectLongTokenRejected` | src/marker.cpp:251-255 | a first token longer than 8 characters is rejected |
| `MarkerAttributes.AspectAcceptedShape` | src/marker.cpp:257-300 | an accepted value starts with its alignment keyword, the rest after spaces is empty, "meet" or "slice", and slice is chosen exactly for "slice" |
| `MarkerAttributes.AspectOfKeyword` | src/marker.cpp:257-300 | a value that starts with an alignment keyword is decided by what follows it |
| `MarkerAttributes.AspectTextRoundTrip` | src/marker.cpp:222-306 | the text of every alignment and clip mode parses back to exactly that setting |
| `MarkerAttributes.ScanAspectRatio` | src/marker.cpp:222-306 | the pointer-walking parse computes `ParseAspectRatio` |
| `MarkerAttributes.SetAttribute` | src/marker.cpp:124-312 | a key that is not one of the eight marker attributes changes nothing |
| `MarkerAttributes.ReadAll` | src/marker.cpp:83-94 | the eight fields each parsed from the node's own attribute; `BuildReadsAll` shows `build`'s reads give them from any start |
| `MarkerAttributes.BuildReadsAll` | src/marker.cpp:83-94 | reading the eight attributes in `build`'s order, from any start, gives the fields `ReadAll` reads from the node |
| `MarkerAttributes.WrittenValueCopies` | src/marker.cpp:487-489 | viewBox and preserveAspectRatio are written as their text in the object's own node, not from the parsed fields |
| `MarkerAttributes.KeyNameInjective` | src/marker.cpp:441-489 | two keys, neither of them an "other" key spelling one of the twelve marker attribute names, name the same attribute exactly when they are the same key |
| `MarkerAttributes.WriteKeysContents` | src/marker.cpp:441-489 | after writing a list of keys, each listed key holds its written value and every other attribute of the target is unchanged |
| `MarkerAttributes.WriteAttributes` | src/marker.cpp:436-494 | the target node after `write`; `WriteAttributesContents`, `WriteUnsetIsAbsent` and `WriteBuildRoundTrip` state its contents and that `build` reads it back |
| `MarkerAttributes.WriteAttributesContents` | src/marker.cpp:436-494 | `write` sets every marker attribute to its written value and leaves all other attributes of the target node alone |
| `MarkerAttributes.WriteUnsetIsAbsent` | src/marker.cpp:441-489 | each of the six parsed attributes is present in the written node exactly when its field is set; viewBox and preserveAspectRatio are copied |
| `MarkerAttributes.WriteCopiesVerbatim` | src/marker.cpp:487-489 | the written viewBox and preserveAspectRatio equal those of the object's own node |
| `MarkerAttributes.WriteBuildRoundTrip` | src/marker.cpp:436-494 | reading back a node that `write` filled from fields `build` read gives the same fields |
| `MarkerFit.Viewport` | src/marker.cpp:327 | the rectangle at the origin with the marker's size; `FromXYWH` gives its width and height |
| `MarkerFit.FittedBox` | src/marker.cpp:333-338 | the viewBox when there is one, the viewport otherwise; `FittedBoxPositive` bounds its size |
| `MarkerFit.FitScale` | src/marker.cpp:340-361 | the two scales: per axis for none, the MIN (meet) or MAX (slice) ratio on both axes otherwise, none for a zero-size box; `StretchScale`, `FitScaleUniform` and `ChosenBounds` state them |
| `MarkerFit.ChildToParent` | src/marker.cpp:327-411 | the transform is a matrix exactly when the fitted box has non-zero width and height; it then has no shear and sends the reference point to the origin |
| `MarkerFit.FittedBoxPositive` | src/marker.cpp:333-338 | the box fitted into the viewport (the viewBox, or the viewport itself) has a non-negative size, positive with a viewBox |
| `MarkerFit.StretchScale` | src/marker.cpp:348-352 | with alignment none the two scales stretch the box onto the viewport |
| `MarkerFit.FitScaleUniform` | src/marker.cpp:354-360 | with any other alignment both scales equal the min (meet) or max (slice) of the two ratios |
| `MarkerFit.ChosenBounds` | src/marker.cpp:358-360 | the meet scale fits the box inside, the slice scale covers the viewport, and one side matches exactly |
| `MarkerFit.UniformScale` | src/marker.cpp:354-360 | the scale is uniform, fits (meet) or covers (slice), and matches one side exactly |
| `MarkerFit.StretchFillsViewport` | src/marker.cpp:348-411 | with alignment none the viewBox is mapped onto the full viewport |
| `MarkerFit.MeetFitsInside` | src/marker.cpp:356-411 | with meet the scaled box lies inside the viewport and touches it on one side |
| `MarkerFit.SliceCovers` | src/marker.cpp:356-411 | with slice the scaled box covers the viewport and matches it on one side |
| `MarkerFit.NoViewBoxIsTranslation` | src/marker.cpp:333-411 | without a viewBox and with a non-zero size the transform is just the translation by minus the reference point |
| `MarkerFit.ZeroSizeIsNotANumber` | src/marker.cpp:327-411 | without a viewBox, a zero width or height divides by zero |
| `MarkerFit.MeetExample` | src/marker.cpp:356-360 | a 50x50 box in a 200x100 viewport scales by 2 with meet |
| `MarkerFit.SliceExample` | src/marker.cpp:356-360 | a 50x50 box in a 200x50 viewport scales by 4 with slice |
| `Markers.FindView` | src/marker.cpp:532-534 | the first view with the key, or the length of the list when there is none |
| `Markers.RemoveAt` | src/marker.cpp:640-646 | unlinking a view keeps the order of all the others |
| `Markers.Empty` | src/marker.cpp:544-548 | a new view has `size` empty slots |
| `Markers.EmptyHoldsNothing` | src/marker.cpp:544-548 | a new view holds no drawing item |
| `Markers.ItemHandlesMembers` | src/marker.cpp:648-651 | the items a view destroys are exactly those in its slots |
| `Markers.AllHandlesMembers` | src/marker.cpp:97-106 | the items of all views are exactly those in some view's slots |
| `Markers.Stamp` | src/marker.cpp:426-433 | each stamped item gets the transform; every other recorded item keeps its own |
| `Markers.RemoveKeepsUnique` | src/marker.cpp:638-655 | removing a view keeps keys unique and leaves no view with its key |
| `Markers.PrependKeepsUnique` | src/marker.cpp:543-552 | putting a view with a new key at the head keeps keys unique |
| `Markers.Suppressed` | src/marker.cpp:567-569 | no instance is shown for strokeWidth units and a zero line width; the first clause of `ShowInstance`'s contract uses it |
| `Markers.InstanceTransform` | src/marker.cpp:587-598 | with strokeWidth units a scale by the line width comes first; with orient auto and user units the transform is `base` itself |
| `Markers.InstancePlacesOrigin` | src/marker.cpp:587-600 | whatever the orientation and units, the marker's origin is placed at the vertex that `base` translates to |
| `Markers.RefPointAtVertex` | src/marker.cpp:578-600 | the reference point of the marker's contents is drawn at the vertex, through the child transform and then the instance transform |
| `Markers.IsStock` | src/marker.cpp:703-704 | a marker is stock when `inkscape:isstock` is missing or "true"; `SharedStockForks`, `SharedCustomForks` and `DefaultPreferencesFork` use it |
| `Markers.RemoveKeepsOwned` | src/marker.cpp:638-655 | unlinking a view whose items are destroyed removes exactly its items from the table and keeps every other item live and in one view only |
| `Markers.PrependEmptyKeepsOwned` | src/marker.cpp:543-552 | a new empty view at the head keeps every item live and in one view only |
| `Markers.FillSlotKeepsOwned` | src/marker.cpp:576-585 | an item first created for an empty slot is live and held by that view alone |
| `Markers.ShouldFork` | src/marker.cpp:696-708 | a marker forks only when referenced at least twice, and then only if the colour preference of its own kind is on: `colorStock` for a stock marker, `colorCustom` for a custom one |
| `Markers.UnsharedNeverForks` | src/marker.cpp:696-698 | a marker referenced fewer than twice never forks |
| `Markers.SharedStockForks` | src/marker.cpp:700-708 | a shared stock marker forks exactly when `colorStock` is on |
| `Markers.SharedCustomForks` | src/marker.cpp:700-708 | a shared custom marker forks exactly when `colorCustom` is on |
| `Markers.DefaultPreferencesFork` | src/marker.cpp:700-708 | with the default preferences exactly the shared stock markers fork; a missing `isstock` counts as stock |
| `Markers.ForkedRepr` | src/marker.cpp:713-719 | the copy has no `inkscape:collect`, gets the document's fresh id, and keeps its stock id or takes the new id as one; every other attribute is copied |
| `Markers.ForkKeepsFields` | src/marker.cpp:714-721 | the copy reads as exactly the same marker fields |
| `Markers.Marker.constructor` | src/marker.cpp:50-63 | unset attributes, identity child transform, no views |
| `Markers.Marker.FromRepr` | src/marker.cpp:83-94 | a marker built from a node holds the fields read from it, with identity child transform and no views |
| `Markers.Marker.Set` | src/marker.cpp:124-312 | the fields after `set` are `SetAttribute` of the fields before |
| `Markers.Marker.Build` | src/marker.cpp:83-94 | after `build` the fields are those read from the node |
| `Markers.Marker.Update` | src/marker.cpp:314-434 | the child transform is `ChildToParent` of the fields, and every item of every view gets it as its child transform |
| `Markers.Marker.SetChildTransforms` | src/marker.cpp:426-433 | every item of every view, and no other, gets the marker's child transform |
| `Markers.Marker.StampItems` | src/marker.cpp:427-432 | the items in one view's slots get the child transform |
| `Markers.Marker.Owns` | src/marker.cpp:528-655 | every item in a view's slot is live in the drawing and held by that view only; `ShowDimension`, `ShowInstance`, `Hide`, `ViewRemove` and `Release` keep this, so they destroy only live items of their own view |
| `Markers.Marker.ViewRemove` | src/marker.cpp:638-655 | the view is unlinked with the others in order, and its items are destroyed exactly when asked |
| `Markers.Marker.ShowDimension` | src/marker.cpp:528-553 | afterwards the key has a view of `size` slots; a matching view is kept; one of the wrong size is destroyed and replaced by an empty one at the head; a new key gets an empty view at the head |
| `Markers.Marker.ShowInstance` | src/marker.cpp:560-606 | nothing happens when suppressed, for an unknown key or a slot out of range; otherwise the slot's item is created on first use, prepended to the parent with the child transform, and it gets the instance transform |
| `Markers.Marker.Hide` | src/marker.cpp:614-631 | the view with the key, if any, is removed and its items destroyed; no view with the key remains |
| `Markers.Marker.Release` | src/marker.cpp:96-109 | every view is removed and all their items destroyed |
| `Markers.Marker.ForkIfNecessary` | src/marker.cpp:694-724 | without a fork the marker itself is returned unchanged; with one, a new marker built from the forked copy is returned and the original is marked collectable |
| `SvgString.PreserveText` | src/sp-string.cpp:141-149 | preserve mode keeps the length and turns each newline, carriage return and tab into a space |
| `SvgString.Step` | src/sp-string.cpp:152-165 | one character of the loop: breaks are skipped, a blank marks a pending space, anything else is appended after one space when one is pending and text or a previous sibling precedes it; `FoldBlanks` and `BlankRunIsOneSpace` state its effect on runs of blanks |
| `SvgString.Fold` | src/sp-string.cpp:150-166 | the loop over the content; `FoldShape`, `FoldVisible`, `FoldBlanks`, `BlankRunIsOneSpace` and `FoldExtends` state what it yields |
| `SvgString.DefaultText` | src/sp-string.cpp:150-170 | the loop's text with a trailing space when blanks end the content and there is a next sibling; the `Default*` lemmas state its properties |
| `SvgString.FoldShape` | src/sp-string.cpp:150-166 | the loop's text has no leading, trailing or double space, except a leading one when there is a previous sibling |
| `SvgString.DefaultCollapsed` | src/sp-string.cpp:150-170 | default mode never yields two spaces in a row |
| `SvgString.DefaultLeading` | src/sp-string.cpp:160-162 | a leading space only appears with a previous sibling, or as the whole text before a next sibling |
| `SvgString.DefaultTrailing` | src/sp-string.cpp:167-169 | the text ends in a space exactly when the content ends in blanks and the node has a next sibling |
| `SvgString.FoldBlanks` | src/sp-string.cpp:157-158 | a run of spaces and tabs adds nothing to the text and only marks a pending space |
| `SvgString.BlankRunIsOneSpace` | src/sp-string.cpp:157-164 | a run of spaces and tabs before a visible character becomes exactly one space when text precedes it or there is a previous sibling, and nothing otherwise |
| `SvgString.FoldExtends` | src/sp-string.cpp:150-166 | the loop only appends: the text of a prefix of the content is a prefix of the text of the whole |
| `SvgString.DefaultBlankRun` | src/sp-string.cpp:150-170 | in default mode a run of blanks between text and a visible character reads as one space, whatever follows |
| `SvgString.LeadingBlanksAfterSibling` | src/sp-string.cpp:160-162 | with a previous sibling, leading blanks before a visible character give one leading space |
| `SvgString.FoldVisible` | src/sp-string.cpp:150-166 | the loop keeps every non-whitespace character, in order |
| `SvgString.DefaultVisible` | src/sp-string.cpp:150-170 | default mode keeps every non-whitespace character, in order |
| `SvgString.FoldIgnoresBreaks` | src/sp-string.cpp:154-156 | the loop's result does not depend on newlines and carriage returns |
| `SvgString.DefaultIgnoresBreaks` | src/sp-string.cpp:154-156 | newlines and carriage returns make no difference to the default-mode text |
| `SvgString.DefaultExample` | src/sp-string.cpp:150-170 | " a\n\tb " reads as "a b " before a next sibling and as " a b" after a previous one |
| `SvgString.StringObject.ReadContent` | src/sp-string.cpp:131-172 | the text is `PreserveText` of the content under preserve and `DefaultText` otherwise, whatever was read before |
| `PovPrism.MatchingIsNamedPreOrder` | src/extension/internal/pov-out.cpp:63-75 | the search finds exactly the nodes with the name, in pre-order |
| `PovPrism.MatchingAllIsNamed` | src/extension/internal/pov-out.cpp:63-75 | searching a forest for a name equals searching for every node (a null name) and keeping those with the name |
| `PovPrism.PreOrderStartsAtRoot` | src/extension/internal/pov-out.cpp:430-456 | the walk visits the node before its children |
| `PovPrism.DigitsShape` | src/extension/internal/pov-out.cpp:236-238 | a count is written as a non-empty run of decimal digits |
| `PovPrism.Pad4Width` | src/extension/internal/pov-out.cpp:188 | `%4d` gives at least four characters, exactly four for a number of at most four |
| `PovPrism.ConcatAppend` | src/extension/internal/pov-out.cpp:594-603 | appending to the buffer in pieces gives the concatenation of the pieces |
| `PovPrism.SegmentTextEnds` | src/extension/internal/pov-out.cpp:181-196 | a segment's node line ends in the closing `>` of its last point |
| `PovPrism.Walk` | src/extension/internal/pov-out.cpp:353 | the walk visits the subpath's segments in order, then the closing line when the subpath is closed or the walk runs to `end_closed()` |
| `PovPrism.WalkCountIs` | src/extension/internal/pov-out.cpp:316-353 | walking to `end_default()` visits exactly the counted segments; walking to `end_closed()` visits one more per open subpath |
| `PovPrism.Counted` | src/extension/internal/pov-out.cpp:318-320 | one subpath's share of the count: `size()`, plus one when it is closed; `WalkCountIs` compares it with the walk |
| `PovPrism.SegmentCount` | src/extension/internal/pov-out.cpp:316-321 | the count over all subpaths; `CountSegments` computes it and `WalkCountIs` relates it to the walk |
| `PovPrism.ExpandTo` | src/extension/internal/pov-out.cpp:388 | expanding a box never shrinks it and puts the point inside |
| `PovPrism.UnionMembersSnoc` | src/extension/internal/pov-out.cpp:494-505 | the union's objects are one entry per shape, in order |
| `PovPrism.UnionZMembersSnoc` | src/extension/internal/pov-out.cpp:523-537 | the Z union's objects are one entry per shape, in order |
| `PovPrism.Separator` | src/extension/internal/pov-out.cpp:383-386 | ",\n" while the number of segments written is below the count, "\n" after that; `PointListEnds` states how the list ends |
| `PovPrism.SegStep` | src/extension/internal/pov-out.cpp:356-388 | one segment: a line or cubic adds its node line, separator, 8 nodes, its number and its end point to the box; any other kind stops; `WriteSegment` follows it |
| `PovPrism.RunSegs` | src/extension/internal/pov-out.cpp:353-390 | the segment loop over one subpath up to the first undrawable segment; `RunSegsCounts`, `RunSegsEnds` and `RunSegsBox` state its effect |
| `PovPrism.RunPath` | src/extension/internal/pov-out.cpp:348-390 | one subpath: the box takes in its start, then its walked segments run; `WriteSubpath` follows it |
| `PovPrism.RunPaths` | src/extension/internal/pov-out.cpp:345-391 | the subpath loop up to the first failure; `RunPathsCounts`, `RunPathsEnds` and `RunPathsBox` state its effect |
| `PovPrism.CurveSpec` | src/extension/internal/pov-out.cpp:264-425 | `doCurve`'s result and new state; `CurveCounters`, `CurveSkips`, `PointListEnds` and `CurveBox` state its properties and `DoCurve` computes it |
| `PovPrism.RunSegsCounts` | src/extension/internal/pov-out.cpp:353-390 | the segment loop succeeds exactly when every segment is a line or cubic; it then numbers each segment and adds 8 nodes per segment |
| `PovPrism.WalkCountFront` | src/extension/internal/pov-out.cpp:345-353 | the walked segments of a path vector are those of its first subpath and then those of the rest |
| `PovPrism.RunPathsCounts` | src/extension/internal/pov-out.cpp:345-391 | the subpath loop succeeds exactly when every walked segment is drawable; it then numbers every walked segment and adds 8 nodes for each |
| `PovPrism.CurveCounters` | src/extension/internal/pov-out.cpp:308-381 | a shape with a curve is counted once, recorded with its id and colour, and adds its segment count; `false` exactly when a walked segment is neither line nor cubic; on success 8 nodes per counted segment, and 8 more per open subpath when walking to `end_closed()` |
| `PovPrism.CurveSkips` | src/extension/internal/pov-out.cpp:270-276 | a non-shape or an empty curve changes nothing and succeeds |
| `PovPrism.RunSegsEnds` | src/extension/internal/pov-out.cpp:383-386 | the last node line written is followed by the separator for the current segment number |
| `PovPrism.RunPathsEmpty` | src/extension/internal/pov-out.cpp:345-391 | subpaths whose walk visits no segment write nothing |
| `PovPrism.RunPathsEnds` | src/extension/internal/pov-out.cpp:383-386 | after the subpaths the last piece is the separator for the last segment number |
| `PovPrism.PointListEnds` | src/extension/internal/pov-out.cpp:323-393 | the walk numbers `segmentCount` segments, plus one per open subpath when walking to `end_closed()`; the point list ends with a newline and no comma, and the shape's foot follows it |
| `PovPrism.PrismPointsAgree` | src/extension/internal/pov-out.cpp:316-353 | walking to `end_default()`, the prism declares four points per node line it writes, and adds 8 nodes per counted segment |
| `PovPrism.OpenPrismMiscounts` | src/extension/internal/pov-out.cpp:316-353 | walking to `end_closed()`, the open subpath M 0,0 L 10,0 L 10,10 is declared as 8 points and 2 segments but written as three node lines with 24 nodes |
| `PovPrism.RunSegsBox` | src/extension/internal/pov-out.cpp:388 | the box stays proper, only grows, and contains every segment's end point |
| `PovPrism.RunPathsBox` | src/extension/internal/pov-out.cpp:339-390 | the box stays proper, only grows, and contains every subpath start and walked segment end |
| `PovPrism.CurveBox` | src/extension/internal/pov-out.cpp:415-422 | the document extent only grows and, after a shape, contains all of that shape's points |
| `PovPrism.Visit` | src/extension/internal/pov-out.cpp:437-446 | a node with an item and an `id` goes through `doCurve`, any other node changes nothing |
| `PovPrism.VisitAll` | src/extension/internal/pov-out.cpp:430-456 | the nodes visited in turn, stopping at the first failure; `VisitAllAppend`, `VisitAllWidens` and `VisitAllCounts` state its properties and `DoCurvesRecursive` computes it |
| `PovPrism.VisitAllAppend` | src/extension/internal/pov-out.cpp:448-453 | walking a sequence of nodes is walking its parts in turn, stopping at the first failure |
| `PovPrism.VisitAllWidens` | src/extension/internal/pov-out.cpp:430-456 | the document extent only grows during the walk |
| `PovPrism.CurvesTail` | src/extension/internal/pov-out.cpp:473-553 | the union of all shapes when there is one, nothing otherwise; `WriteUnion` writes it |
| `PovPrism.UnionText` | src/extension/internal/pov-out.cpp:473-553 | the union's head, one object per shape, the Z union with increment 0.2 over the number of shapes, and its extents; `UnionMembersSnoc`, `UnionZMembersSnoc` and `UnionTextIs` tie it to the loops |
| `PovPrism.CurvesSpec` | src/extension/internal/pov-out.cpp:461-556 | `doCurves`: the extent starts at plus and minus one million, the tree is walked, then the union follows; `CurvesBox` bounds its extent and `DoCurves` computes it |
| `PovPrism.CurvesBox` | src/extension/internal/pov-out.cpp:463-467 | the extent written for the union is at least the initial plus and minus one million |
| `PovPrism.HeaderText` | src/extension/internal/pov-out.cpp:205-242 | the header with the shape, segment and node counts; `DocumentCounts` states what counts it carries |
| `PovPrism.ResetState` | src/extension/internal/pov-out.cpp:568-575 | counters are zero, buffer and shape list empty |
| `PovPrism.VisitAllCounts` | src/extension/internal/pov-out.cpp:278-375 | a successful walk keeps the shape count equal to the number of shapes recorded, and adds 8 nodes per counted segment plus, when walking to `end_closed()`, 8 per open subpath of the prisms written |
| `PovPrism.DefaultWalkCountsAgree` | src/extension/internal/pov-out.cpp:316-375 | walking to `end_default()`, a saved document's counters give one shape per recorded shape and 8 nodes per segment |
| `PovPrism.DocumentText` | src/extension/internal/pov-out.cpp:582-609 | header, curves and tail of a reset exporter, none when a shape fails; `DocumentCounts` states its counts and `SaveDocument` computes it |
| `PovPrism.DocumentCounts` | src/extension/internal/pov-out.cpp:582-609 | the file is the header, then the curves, then the tail; the header gives the number of shapes, the segments, and 8 nodes per segment plus, when walking to `end_closed()`, 8 per open subpath |
| `PovOut.FindElementsByTagName` | src/extension/internal/pov-out.cpp:63-75 | the recursive search appends exactly `Matching(node, name)` to the results |
| `PovOut.PovOutput.Out` | src/extension/internal/pov-out.cpp:121-129 | the text is appended to the buffer |
| `PovOut.PovOutput.Reset` | src/extension/internal/pov-out.cpp:568-575 | the new state is `ResetState` of the old |
| `PovOut.PovOutput.CountSegments` | src/extension/internal/pov-out.cpp:314-321 | the counting loop computes `SegmentCount` |
| `PovOut.PovOutput.WriteSegment` | src/extension/internal/pov-out.cpp:356-388 | one segment's node line and separator, counters and box as `SegStep` says |
| `PovOut.PovOutput.WriteSubpath` | src/extension/internal/pov-out.cpp:348-390 | one subpath written as `RunPath` says, walking to `end_closed()` |
| `PovOut.PovOutput.WritePoints` | src/extension/internal/pov-out.cpp:339-391 | the point list written as `RunPaths` says, from a box at the first subpath's start |
| `PovOut.PovOutput.Widen` | src/extension/internal/pov-out.cpp:415-422 | the document extent becomes the union with the shape's box |
| `PovOut.PovOutput.DoCurve` | src/extension/internal/pov-out.cpp:264-425 | result and new state are `CurveSpec` of the old state, walking to `end_closed()` |
| `PovOut.PovOutput.DoCurvesRecursive` | src/extension/internal/pov-out.cpp:430-456 | result and new state are those of visiting the subtree in pre-order, stopping at the first failure |
| `PovOut.PovOutput.WriteUnionMembers` | src/extension/internal/pov-out.cpp:494-505 | one union entry per recorded shape is appended |
| `PovOut.PovOutput.WriteUnionZMembers` | src/extension/internal/pov-out.cpp:523-537 | one Z-union entry per recorded shape is appended |
| `PovOut.PovOutput.WriteUnion` | src/extension/internal/pov-out.cpp:473-553 | the union text is appended when there is a shape, nothing otherwise |
| `PovOut.PovOutput.DoCurves` | src/extension/internal/pov-out.cpp:461-556 | result and new state are `CurvesSpec` of the old state |
| `PovOut.PovOutput.DoHeader` | src/extension/internal/pov-out.cpp:205-242 | the header with the current counts is appended |
| `PovOut.PovOutput.DoTail` | src/extension/internal/pov-out.cpp:249-257 | the tail is appended |
| `PovOut.PovOutput.AssembleFile` | src/extension/internal/pov-out.cpp:594-609 | the buffer becomes header, then the earlier curves, then the tail, and the text is its concatenation |
| `PovOut.PovOutput.SaveDocument` | src/extension/internal/pov-out.cpp:582-627 | the file text is `DocumentText` of the old state, or none when a curve fails; the buffer holds exactly that text |
| `Plotter.ReplaceAll` | share/extensions/plotter.py:95-97 | Python's `str.replace`: leftmost occurrences, without overlap; the `ReplaceAll*` lemmas and `ReplaceCharPointwise` characterise it |
| `Plotter.ReplaceCharPointwise` | share/extensions/plotter.py:95 | replacing one character by another keeps the length and changes exactly the matching positions |
| `Plotter.ReplaceAllAbsent` | share/extensions/plotter.py:95-97 | text without an occurrence is unchanged |
| `Plotter.ReplaceAllShrinks` | share/extensions/plotter.py:96-97 | replacing by a shorter text never lengthens, and shortens exactly when an occurrence exists |
| `Plotter.ReplaceAllHead` | share/extensions/plotter.py:96-97 | a leading occurrence is replaced and the scan continues after it |
| `Plotter.ReplaceAllSkip` | share/extensions/plotter.py:96-97 | a character that cannot start an occurrence is kept |
| `Plotter.ReplaceAllPassOver` | share/extensions/plotter.py:95-97 | a prefix inside which no occurrence starts is kept as it is |
| `Plotter.MatchPenSelect` | share/extensions/plotter.py:98 | a match has one or two digits, the text starts with `IN,SP`, the digits and a comma, and no match without `IN,SP` |
| `Plotter.SubPenSelect` | share/extensions/plotter.py:98 | `re.sub` of the pen selection, scanning left to right; `SubPenSelectAbsent` and `PenSelectToDmpl` state its effect |
| `Plotter.SubPenSelectAbsent` | share/extensions/plotter.py:98 | without `IN,SP` the substitution changes nothing |
| `Plotter.Rewrite` | share/extensions/plotter.py:95-98 | the four substitutions in their order; `PenUpToDmpl`, `PenDownToDmpl`, `OtherCharToDmpl` and `PenSelectToDmpl` state their effect on each command |
| `Plotter.ConvertCommands` | share/extensions/plotter.py:93-99 | other languages pass through; for DMPL the result is the rewrite followed by `Z`, so it ends with `Z` |
| `Plotter.PenUpToDmpl` | share/extensions/plotter.py:96 | a leading `PU` becomes `U` |
| `Plotter.PenDownToDmpl` | share/extensions/plotter.py:97 | a leading `PD` becomes `D` |
| `Plotter.OtherCharToDmpl` | share/extensions/plotter.py:95-98 | any other leading character is kept, a semicolon becoming a comma |
| `Plotter.PenSelectToDmpl` | share/extensions/plotter.py:95-98 | `IN;SP<pen>;` with a one- or two-digit pen becomes `;:HAL0P<pen>EC1` |

## Left out

- File output, the serial port and pySerial, and the HPGL encoder are not modelled: the model returns the file's text and the command string.
- `time`/`ctime` and `INKSCAPE_VERSION` in the POV-Ray header are the parameters `created` and `version`.
- `dstr` (`g_ascii_formatd` with `%.8f`) is a function parameter of `Format`. The exporter's fixed lines are the `Boilerplate` value, and `PovText` holds them as in the source.
- `printf`-style formatting of counts is modelled as decimal digits (`IntText`, `Pad4`); the rest of `out`'s formatting is the concatenations in `PovPrism`.
- The exporter's buffer is a sequence of the pieces `out` appended. The file is their concatenation (`Concat`), not one growing string.
- The colour string of a shape (fill colour, `effective_opacity`) and the conversion of its curve to document coordinates and to lines and cubics (`sp_item_i2d_affine`, `pathv_to_linear_and_cubic_beziers`) are not modelled. Each item arrives with its colour string and its subpaths already converted. A segment of any other kind stands for the impossible case the source reports as a logical error.
- The document-to-object lookup (`getObjectByRepr`, `SP_IS_ITEM`, `SP_IS_SHAPE`) is the node's `ObjKind`.
- The `PovOutput` constructor is not modelled: its header is not part of this model.
- `g_warning` messages are not modelled.
- The number readers and writers of the marker code are the parameters in `NumberSyntax`. Units of lengths (`SVGLength` units) are not modelled, only the computed value.
- `requestDisplayUpdate` and the calls to the parent class `SPGroup` (`build`, `update`, `write`, `hide`, `release`) are not modelled. Its `show` is the backend's `CreateGroup`, which always yields a new group, so `ShowInstance` never sees a null item.
- Rotation by degrees is kept symbolic (`RotateDegrees`), because there is no trigonometry on reals. `MapPoint` only knows that it fixes the origin.
- Floating point is modelled as exact reals. The only division by zero in `update` happens without a viewBox and with a zero-size viewport, where the numerator is zero or already NaN; the model gives the value `NotANumber` there, standing for the NaN entries that IEEE 0/0 produces.
- `Markers.ShouldFork`: the preferences `/options/markers/colorStockMarkers` and `colorCustomMarkers` are the parameters `colorStock` and `colorCustom`.
- `Markers.ForkedRepr` and `Markers.Marker.ForkIfNecessary`: the document's fresh id for the copy is the parameter `uniqueId`. Adding the copy to `<defs>` and the garbage collector's reference counting are not modelled.
- `Markers.Marker.constructor`: the initial values are those of the class header's defaults, which are not in the source text modelled here.
- `Markers.Marker.ViewRemove` identifies a view by its position. The source's early return for a view that is not in the list cannot happen here.
- Unicode decoding of XML content (`g_utf8_next_char`) is not modelled: strings are sequences of characters.
- `generate_marker` and the other helpers of `marker.cpp` are outside this model.
- `PovPrism.Walk`: 2geom is not part of this model. The model takes 2geom's path interface of this era to mean the following. `size()` counts the open segments. The closing line from the final point back to the initial point is always stored. `end_default()` stops before the closing line of an open subpath. `end_closed()` always stops after the closing line. `Walk(sp, EndDefault)` and `Walk(sp, EndClosed)` follow those two readings, and the `PovOutput` methods walk to `end_closed()` as the code does.

## Findings

| source | as written | input that shows it | evidently intended | confidence | as-written member | corrected member |
|---|---|---|---|---|---|---|
| src/extension/internal/pov-out.cpp:316-353 | `segmentCount` adds `size()` and one more only for a closed subpath, but the segment loop runs to `end_closed()`, which also visits the closing line of an open subpath | one open subpath M 0,0 L 10,0 L 10,10: "8 //nr points" and 2 segments are declared, but three node lines and 24 nodes are written | the loop walks exactly the counted segments (to `end_default()`), so that "nr points" is four times the node lines and the header's nodes are 8 per segment | not executed; depends on the reading of 2geom's `end_closed()` under "## Left out" | `PovPrism.OpenPrismMiscounts` | `PovPrism.PrismPointsAgree` |
