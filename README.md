# fontMath `MathGlyph`: a verified model

fontMath does arithmetic on glyphs for font interpolation. A `MathGlyph` is a shallow copy of a
glyph: its contours (lists of `(segmentType, pt, smooth, name)` point records), its components
(base glyph, six-value transformation, identifier), its anchors, its width and metadata. Glyphs
with compatible outlines can be added, subtracted, multiplied and divided by factors, and turned
back into ordinary glyphs.

This project models the core of `Lib/fontMath/mathGlyph.py` in Dafny and proves properties of
that model.

- **Outline normaliser** (module `Normalizer`, class `MathGlyphPen`). The pen that reads a
  glyph buffers one contour's point events. It then rewrites every `line` on-curve point as a
  `curve` with two synthetic off-curve controls at the previous on-curve point and at the point
  itself. A leading line gets its pair at the end of the contour, which is the wrap-around
  segment. The closed-form `Normalize` is the specification. The pen's loop (`ConvertContour`)
  is proved to compute exactly it. Then come its properties: no lines survive, the length
  grows by two per line, on-curve points keep their order, and it is idempotent.
- **Redundancy filter** (module `RedundancyFilter`, class `FilterRedundantPointPen`). This is the
  pen used when a math glyph is written back. A `curve` whose two preceding off-curves sit
  exactly at the previous on-curve point and at the point itself becomes a `line` again, and
  loses those controls. The first point is checked against the trailing off-curves and the last
  on-curve point.
  - `Filter` is the recursive specification, and the pen's loops are proved to compute it.
  - A second, index-based reference definition is proved equal to it.
  - Its fixpoints are exactly the contours with nothing to collapse.
- **Round trip** (module `RoundTrip`). Filtering a normalised contour gives the original
  contour back. The exception is the smooth flag of a leading line, which the normaliser
  clears. This needs two conditions: no genuine curve already has controls on its endpoints,
  and every line follows an on-curve point.
- **Structure and compatibility** (module `Structure`). These are the per-contour segment-type
  lists, the component base-glyph list and the anchor name list, and `isCompatible` under its
  three flags.
- **Pairing** (module `Pairing`).
  - Anchors are grouped by name (`_anchorTree`). Within each shared name they pair first by
    identifier, then by position (`_pairAnchors`).
  - Components pair first by (base glyph, identifier), then by base glyph alone
    (`_pairComponents`).
  - Each greedy pass is one generic first-match pass, `GreedyPass`, which the source's
    remove-and-pop loops are proved to compute.
- **Glyph math** (module `GlyphMath`).
  - glyph ± glyph combines the contours point by point. It combines the paired anchors and
    components, and the widths.
  - glyph × factor and glyph ÷ factor scale every point, anchor and transformation per axis,
    and the width by the x factor.
  - `copy` draws the glyph into a fresh `MathGlyphPen`.
  - `__cmp__` compares every field except the generation count.
- **Math between drawing and writing back** (module `MathRoundTrip`). Normalising commutes with
  glyph ± glyph on contours with the same segment types, and with glyph × factor. So a contour
  of line segments that is normalised, put through the arithmetic and filtered comes back as
  the same arithmetic on its line segments.
- **The source as written** (module `AsWritten`). Five places where the source does not do what
  it evidently means; see "## Findings".
- **Worked examples** (modules `PairingExamples`, `GlyphMathExamples`). The doctests of the
  pairing and per-pair arithmetic helpers, stated and proved about the model.

Coordinates, widths and factors are exact `real` numbers. So the filter's equality test
compares exactly what it says, and `x * f / f == x` holds. The segment type `None` of an
off-curve point is the constructor `OffCurve`. A Python exception is an `Err` carrying a
`MathError`.

## Model

| member | source | states |
|---|---|---|
| Normalizer.ConvertContour | Lib/fontMath/mathGlyph.py:42-87 | the pen's loop over one contour emits exactly `Normalize(points)`; the buffer grows by the leading line's synthetic pair (last point, first point) and nothing else |
| Normalizer.ConvertFirstPoint | Lib/fontMath/mathGlyph.py:47-64 | the first-point step: what it emits, followed by normalising the rest from the on-curve it records, equals the whole normalised contour |
| Normalizer.MathGlyphPen.constructor | Lib/fontMath/mathGlyph.py:37-40 | a new pen has no contours, no components and an empty point buffer |
| Normalizer.MathGlyphPen.BeginPath | Lib/fontMath/mathGlyph.py:89-90 | empties the point buffer and leaves contours and components alone |
| Normalizer.MathGlyphPen.AddPoint | Lib/fontMath/mathGlyph.py:92-93 | appends the point record to the buffer and changes nothing else |
| Normalizer.MathGlyphPen.EndPath | Lib/fontMath/mathGlyph.py:95-96 | appends the normalised buffered contour to `contours`; the buffer keeps the appended synthetic pair, as the source's in-place `points.append` does |
| Normalizer.MathGlyphPen.FlushContour | Lib/fontMath/mathGlyph.py:42-87 | appends `Normalize` of the buffer as a new contour; components are unchanged |
| Normalizer.MathGlyphPen.AddComponent | Lib/fontMath/mathGlyph.py:98-99 | appends the component (base glyph, transformation, identifier); contours and buffer unchanged |
| Normalizer.NormalizeNoLines | Lib/fontMath/mathGlyph.py:55-60 | no point of a normalised contour has segment type `line` |
| Normalizer.NormalizeLength | Lib/fontMath/mathGlyph.py:48-87 | a normalised contour is longer than its input by exactly two points per input line |
| Normalizer.LastOnCurveSnoc | Lib/fontMath/mathGlyph.py:83 | the previous on-curve coordinate the loop keeps is that of the last on-curve point read so far: a trailing on-curve point sets it, a trailing control leaves it |
| Normalizer.NormalizeRestAppend | Lib/fontMath/mathGlyph.py:66-84 | the loop is compositional: normalising a + b is normalising a, then b from the last on-curve coordinate of a |
| Normalizer.NormalPosStep | Lib/fontMath/mathGlyph.py:66-84 | each next input point lands one output place further on, or three places when it is a line, whose two new controls come first |
| Normalizer.NormalPosIncreasing | Lib/fontMath/mathGlyph.py:66-84 | the input-to-output position map is strictly increasing: normalising keeps the points in order |
| Normalizer.NormalizeRestPlacement | Lib/fontMath/mathGlyph.py:66-84 | in the loop's output, point k of the rest sits at k plus two per line up to it; a line becomes a curve preceded by a control at the previous on-curve coordinate and one at its own coordinate; other points are unchanged |
| Normalizer.NormalizePlacement | Lib/fontMath/mathGlyph.py:48-84 | point k of a contour lands at `NormalPos(p, k)`: non-line points unchanged; a later line as a curve behind controls at the last on-curve coordinate before it and at its own; a leading line as a curve with its smooth flag cleared |
| Normalizer.NormalizeLeadLineControls | Lib/fontMath/mathGlyph.py:55-60 | a leading line ends the normalised contour with two controls: one at the last input point's coordinate, then one at the leading line's own |
| Normalizer.NormalizeOnCurves | Lib/fontMath/mathGlyph.py:57-81 | the on-curve points of the output are the input's on-curve points, in order and with pt, smooth and name, with lines turned into curves; the one exception is a leading line, whose smooth flag is cleared |
| Normalizer.NormalizeIdempotent | Lib/fontMath/mathGlyph.py:42-87 | a non-empty contour without lines is normalisable and normalising leaves it unchanged, so normalising twice is normalising once |
| RedundancyFilter.LeadTest | Lib/fontMath/mathGlyph.py:121-139 | the backward scan from the end of the contour decides exactly `LeadRedundant`: two trailing off-curves at (first point, last on-curve) |
| RedundancyFilter.FilterFirstPoint | Lib/fontMath/mathGlyph.py:115-141 | the first-point step, followed by filtering the possibly truncated rest, equals `Filter` of the whole contour |
| RedundancyFilter.FilterContour | Lib/fontMath/mathGlyph.py:107-166 | the filter's loops emit exactly `Filter(points)` |
| RedundancyFilter.FilterMatchesReference | Lib/fontMath/mathGlyph.py:108-169 | `Filter` equals an independent index-based definition: a point is dropped iff it is one of the two controls of a collapsing curve, and a collapsing curve is emitted as a `line` |
| RedundancyFilter.FilterFixpointIff | Lib/fontMath/mathGlyph.py:108-169 | the filter leaves a contour unchanged if and only if no curve in it collapses |
| RedundancyFilter.PointEvents | Lib/fontMath/mathGlyph.py:167-169 | one `addPoint` event per point, in order |
| RedundancyFilter.FilterRedundantPointPen.constructor | Lib/fontMath/mathGlyph.py:103-105 | a new filter pen has an empty buffer and has drawn nothing |
| RedundancyFilter.FilterRedundantPointPen.BeginPath | Lib/fontMath/mathGlyph.py:171-173 | empties the buffer and forwards `beginPath` |
| RedundancyFilter.FilterRedundantPointPen.AddPoint | Lib/fontMath/mathGlyph.py:175-176 | buffers the point and draws nothing |
| RedundancyFilter.FilterRedundantPointPen.EndPath | Lib/fontMath/mathGlyph.py:178-180 | the downstream pen receives the filtered contour's points in order, then `endPath`; the buffer itself is not changed |
| RedundancyFilter.FilterRedundantPointPen.FlushContour | Lib/fontMath/mathGlyph.py:108-169 | the downstream pen receives exactly the points of `Filter(buffer)` |
| RedundancyFilter.FilterRedundantPointPen.AddComponent | Lib/fontMath/mathGlyph.py:182-184 | forwards the component unchanged |
| RoundTrip.RoundTrip | Lib/fontMath/mathGlyph.py:42-169 | filtering a normalised contour restores the input, except that a leading line's smooth flag is cleared; needs a normalisable input in which lines follow on-curves and no curve collapses |
| RoundTrip.RoundTripNeedsLinesFollowOnCurves | Lib/fontMath/mathGlyph.py:73-81 | the line rule in `RoundTrip` cannot be dropped: [curve, control, line] is normalisable and compact, but filtering its normalised form keeps all five points instead of giving back three |
| RoundTrip.ThreeControlsKept | Lib/fontMath/mathGlyph.py:141-159 | a curve point after three buffered controls is not collapsed: the filter passes controls and curve through unchanged |
| RoundTrip.RoundTripLineStart | Lib/fontMath/mathGlyph.py:121-139 | a leading line's synthetic pair at the end of the contour is recognised by the wrap-around check and removed again |
| RoundTrip.RoundTripOnStart | Lib/fontMath/mathGlyph.py:62-64 | for a contour starting on a move, curve or qcurve, filtering the normalised contour equals filtering the input |
| RoundTrip.RoundTripOffStart | Lib/fontMath/mathGlyph.py:49-51 | for a contour starting on an off-curve, filtering the normalised contour equals filtering the input |
| RoundTrip.FilterNormalizeRest | Lib/fontMath/mathGlyph.py:66-84 | on the points after the first, the filter undoes the normaliser's synthetic controls |
| Structure.SegmentTypes | Lib/fontMath/mathGlyph.py:259 | one segment type per point, in order |
| Structure.ContourStructure | Lib/fontMath/mathGlyph.py:257-259 | one segment-type list per contour, in order |
| Structure.ComponentStructure | Lib/fontMath/mathGlyph.py:260 | the base-glyph names of the components, in order (the corrected reading of the line) |
| Structure.AnchorStructure | Lib/fontMath/mathGlyph.py:261 | the anchor names, in order |
| Structure.SegmentTypesEqual | Lib/fontMath/mathGlyph.py:259 | two contours have the same structure iff they have the same length and the same segment type at every index |
| Structure.ContourCompatibleIff | Lib/fontMath/mathGlyph.py:446-468 | with only the contour flag set, glyphs are compatible iff they have as many contours, each pair of the same length and segment types |
| Structure.ComponentCompatibleIff | Lib/fontMath/mathGlyph.py:462-464 | with only the component flag set, compatible iff the base-glyph lists are equal index by index |
| Structure.AnchorCompatibleIff | Lib/fontMath/mathGlyph.py:465-467 | with only the anchor flag set, compatible iff the anchor-name lists are equal index by index |
| Pairing.FirstMatch | Lib/fontMath/mathGlyph.py:709-713 | returns the first index in the list that matches, or none when nothing matches |
| Pairing.MatchPass | Lib/fontMath/mathGlyph.py:705-720 | the remove-on-match loop computes `GreedyPass`: the pairs, and what is left of each list |
| Pairing.FindFirstMatch | Lib/fontMath/mathGlyph.py:709-713 | the inner scan stops at the index of the first match, or at the end of the list when nothing matches |
| Pairing.GreedyPassMatchAt | Lib/fontMath/mathGlyph.py:709-718 | every pair a pass produces satisfies the pass's matching test |
| Pairing.GreedyPassPartition | Lib/fontMath/mathGlyph.py:705-720 | each list is split, as a multiset, between the pairs and its leftovers: every element is used at most once and nothing is invented |
| Pairing.GreedyPassMaximal | Lib/fontMath/mathGlyph.py:705-720 | no leftover of the first list matches any leftover of the second |
| Pairing.RemoveAtMultiset | Lib/fontMath/mathGlyph.py:717 | removing the matched element takes exactly that element out |
| Pairing.PairComponentsLoop | Lib/fontMath/mathGlyph.py:701-729 | the two passes over copied lists compute `PairComponents`: exact (base glyph, identifier) pairs first, then base-glyph pairs of the leftovers |
| Pairing.PairComponentsMatch | Lib/fontMath/mathGlyph.py:704-728 | every pair shares its base glyph, and the pairs of the first pass, which come first, also share the identifier |
| Pairing.PairComponentsUseEachOnce | Lib/fontMath/mathGlyph.py:701-729 | each component of either list appears in at most one pair |
| Pairing.PairComponentsMaximal | Lib/fontMath/mathGlyph.py:721-728 | components left unpaired have no base glyph in common with any leftover of the other list |
| Pairing.PairComponentsFrom | Lib/fontMath/mathGlyph.py:701-729 | every pair takes its first component from the first list and its second from the second |
| Pairing.GreedyPassAligned | Lib/fontMath/mathGlyph.py:701-729 | two lists of one length whose elements match index by index are paired index by index, with nothing left over |
| Pairing.PairComponentsAligned | Lib/fontMath/mathGlyph.py:701-729 | components that agree index by index on base glyph and identifier are each paired with the component at their own index |
| Pairing.PairComponentsSelf | Lib/fontMath/mathGlyph.py:701-729 | a list paired with itself gives each component paired with itself, in order |
| Pairing.AnchorOf | Lib/fontMath/mathGlyph.py:583-599 | the anchor rebuilt from a bucket name and entry has that name and that entry |
| Pairing.RegroupedPermutes | Lib/fontMath/mathGlyph.py:477-605 | listing the anchors bucket by bucket, over distinct names that cover every anchor's name, is a permutation of the anchors |
| Pairing.RegroupedByNameOrder | Lib/fontMath/mathGlyph.py:477-605 | listing the anchors bucket by bucket in first-occurrence name order is a permutation of the anchors |
| Pairing.BuildAnchorTree | Lib/fontMath/mathGlyph.py:500-510 | the grouping loop builds `AnchorTreeOf`: one bucket per anchor name, each in list order |
| Pairing.BucketMembers | Lib/fontMath/mathGlyph.py:500-510 | a bucket holds the entry of every anchor with its name, and only such entries |
| Pairing.BucketInsertionOrder | Lib/fontMath/mathGlyph.py:501-509 | the i-th anchor's entry comes right after the entries of the earlier anchors with the same name |
| Pairing.BucketGrows | Lib/fontMath/mathGlyph.py:501-509 | the bucket of a prefix of the anchor list is a prefix of the bucket |
| Pairing.NameOrder | Lib/fontMath/mathGlyph.py:566 | the names to visit are exactly the names of the first glyph's anchors, each once |
| Pairing.PairByIndex | Lib/fontMath/mathGlyph.py:590-604 | the pop-from-the-front loop pairs the leftovers by position, up to the shorter bucket |
| Pairing.PairBucketLoop | Lib/fontMath/mathGlyph.py:570-604 | the loop over one name computes `PairBucket`: identifier pass, then positional pass |
| Pairing.PairAnchorsLoop | Lib/fontMath/mathGlyph.py:565-605 | the loop over names computes `PairAnchors` |
| Pairing.PairBucketProperties | Lib/fontMath/mathGlyph.py:570-604 | the identifier-pass pairs, which come first, share the identifier (`None` matches `None`); each entry is used at most once; all of the shorter bucket is used |
| Pairing.PairBucket | Lib/fontMath/mathGlyph.py:570-604 | a shared name yields min(size of bucket 1, size of bucket 2) pairs |
| Pairing.PairBucketNamed | Lib/fontMath/mathGlyph.py:583-599 | both anchors of every pair carry the bucket's name |
| Pairing.PairAnchorsShared | Lib/fontMath/mathGlyph.py:566-569 | pairs exist only for names that are visited and present in both trees, and both anchors carry that name |
| Pairing.PairAnchorsCount | Lib/fontMath/mathGlyph.py:565-605 | each shared name yields min of the two bucket sizes pairs, and every other name none |
| Pairing.PairAnchorsFrom | Lib/fontMath/mathGlyph.py:500-605 | every pair holds an anchor of the first list and an anchor of the second, with the same name |
| GlyphMath.CombineContour | Lib/fontMath/mathGlyph.py:321-324 | each point combines with the point at the same index, keeping its segment type, smooth flag and name |
| GlyphMath.CombineContours | Lib/fontMath/mathGlyph.py:317-324 | one combined contour per contour of the first glyph |
| GlyphMath.ProcessMathOneContours | Lib/fontMath/mathGlyph.py:315-324 | the nested loops produce the combined contours, or the index error exactly when the other glyph has fewer contours or a shorter contour |
| GlyphMath.CombineContourLoop | Lib/fontMath/mathGlyph.py:320-324 | the point loop of one contour gives the combined contour, or the index error exactly when the other contour is shorter |
| GlyphMath.CombineAnchors | Lib/fontMath/mathGlyph.py:621-628 | each pair gives the first anchor moved by the second's coordinates, keeping the first's name, identifier and color |
| GlyphMath.CombineComponents | Lib/fontMath/mathGlyph.py:745-755 | each pair gives the first component with the transformations combined as (xScale, yScale), (xyScale, yxScale) and (xOffset, yOffset) pairs, keeping base glyph and identifier |
| GlyphMath.ProcessMathOne | Lib/fontMath/mathGlyph.py:301-336 | glyph ± glyph fails, with the index error, iff the contours do not fit. Otherwise the result has the combined contours and the combined width, the first glyph's name, unicodes, note and lib, and its generation count plus one |
| GlyphMath.ProcessMathOneMethod | Lib/fontMath/mathGlyph.py:301-336 | the step-by-step operation computes `ProcessMathOne` |
| GlyphMath.ProcessMathOneCompatible | Lib/fontMath/mathGlyph.py:446-468 | for contour-compatible operands the operation succeeds and the result is contour-compatible with the first |
| GlyphMath.ProcessMathOneAnchors | Lib/fontMath/mathGlyph.py:325-331 | every result anchor is an anchor of the first glyph moved by an anchor of the second with the same name |
| GlyphMath.ProcessMathOneComponents | Lib/fontMath/mathGlyph.py:332-336 | every result component is a component of the first glyph combined with one of the second with the same base glyph |
| GlyphMath.SubUndoesAdd | Lib/fontMath/mathGlyph.py:301-311 | (g1 + g2) − g2 has g1's contours and width |
| GlyphMath.AddSelfIsDouble | Lib/fontMath/mathGlyph.py:301-346 | g + g has the contours, components and width of g × 2, and the same anchors up to their order |
| GlyphMath.AddZero | Lib/fontMath/mathGlyph.py:301-336 | adding a glyph of the same structure whose coordinates, transformations and width are zero succeeds and gives back the contours, components and width, and the anchors up to their order |
| GlyphMath.PairAlignedAnchors | Lib/fontMath/mathGlyph.py:325-331 | when two anchor lists agree index by index on name and identifier, the combined anchor pairs are a permutation of the anchors combined index by index |
| GlyphMath.PairAnchorsCombined | Lib/fontMath/mathGlyph.py:512-628 | for such lists, the pairs of each name, combined, are that name's bucket of the index-by-index combination, name after name |
| GlyphMath.BucketsCombined | Lib/fontMath/mathGlyph.py:477-510 | for such lists, each name's buckets keep the index-by-index agreement: one length, the same identifiers, and the combined bucket combines them |
| MathRoundTrip.NormalizeRestCombine | Lib/fontMath/mathGlyph.py:42-87 | on contours with the same segment types, normalising the rest of the combined contour gives the combination of the normalised rests |
| MathRoundTrip.NormalizeCombine | Lib/fontMath/mathGlyph.py:313-323 | normalising a combined contour gives the combination of the normalised contours, for contours with the same segment types |
| MathRoundTrip.CombineRoundTrip | Lib/fontMath/mathGlyph.py:419-432 | filtering the combination of two normalised contours gives the combination of the contours, with a leading line's smooth flag cleared, when there is nothing to collapse |
| MathRoundTrip.LineRoundTripThroughMath | Lib/fontMath/mathGlyph.py:419-432 | two lines drawn, added to themselves and filtered come back as two lines of twice the length |
| MathRoundTrip.SegmentsDecideFirstOnCurve | Lib/fontMath/mathGlyph.py:42-87 | whether a line comes before any on-curve point depends only on the segment types |
| MathRoundTrip.NormalizeRestSegments | Lib/fontMath/mathGlyph.py:42-87 | normalising contours with the same segment types gives contours with the same segment types |
| MathRoundTrip.NormalizeRestScale | Lib/fontMath/mathGlyph.py:42-87 | normalising the rest of a scaled contour gives the normalised rest scaled |
| MathRoundTrip.NormalizeScale | Lib/fontMath/mathGlyph.py:364-368 | normalising a scaled contour gives the normalised contour scaled |
| MathRoundTrip.ScalePtInjective | Lib/fontMath/mathGlyph.py:22-28 | with nonzero factors, two points scale to the same point iff they are equal |
| MathRoundTrip.ScaleKeepsCompact | Lib/fontMath/mathGlyph.py:108-169 | scaling by nonzero factors leaves a contour with nothing for the filter to collapse |
| MathRoundTrip.ScaleRoundTrip | Lib/fontMath/mathGlyph.py:419-432 | filtering a scaled normalised contour gives the scaled contour, with a leading line's smooth flag cleared, for nonzero factors |
| GlyphMath.ScaleContour | Lib/fontMath/mathGlyph.py:366-368 | each point is scaled per axis and keeps its segment type, smooth flag and name |
| GlyphMath.ScaleContours | Lib/fontMath/mathGlyph.py:364-368 | one scaled contour per contour |
| GlyphMath.ProcessMathTwoContours | Lib/fontMath/mathGlyph.py:362-368 | the nested loops scale every point, and fail with division by zero exactly when there is a point and a zero divisor |
| GlyphMath.ScaleContourLoop | Lib/fontMath/mathGlyph.py:366-368 | the point loop of one contour gives the scaled contour, or division by zero when the contour has a point and a divisor is zero |
| GlyphMath.ScaleAnchors | Lib/fontMath/mathGlyph.py:630-647 | every anchor's x is scaled by the x factor and its y by the y factor; nothing else changes |
| GlyphMath.ScaleComponents | Lib/fontMath/mathGlyph.py:757-777 | every transformation is scaled as point pairs: xScale, xyScale and xOffset by the x factor; yxScale, yScale and yOffset by the y factor |
| GlyphMath.ScaleGlyph | Lib/fontMath/mathGlyph.py:340-376 | glyph × or ÷ factor fails, with division by zero, iff it divides and either the x factor is zero or the y factor is zero and some point, anchor or component is scaled. Otherwise the width is scaled by the x factor, the metadata kept and the generation count plus one |
| GlyphMath.ScaleGlyphScales | Lib/fontMath/mathGlyph.py:22-28 | with an accepted factor, every point, anchor and transformation of the result is the original scaled per axis |
| GlyphMath.ScaleGlyphMethod | Lib/fontMath/mathGlyph.py:340-376 | the step-by-step operation computes `ScaleGlyph`, including which step raises |
| GlyphMath.DivUndoesMul | Lib/fontMath/mathGlyph.py:340-356 | for nonzero factors, (g × f) ÷ f is g with its generation count raised by two |
| GlyphMath.MulByOne | Lib/fontMath/mathGlyph.py:340-346 | g × 1 is g with its generation count raised by one |
| GlyphMath.NormalizeContours | Lib/fontMath/mathGlyph.py:220-222 | each contour is read back through the normaliser |
| GlyphMath.DropIdentifiers | Lib/fontMath/mathGlyph.py:410-411 | each component is redrawn without its identifier |
| GlyphMath.CopyGlyph | Lib/fontMath/mathGlyph.py:274-276 | drawing the glyph into a fresh `MathGlyphPen` gives `Copy(g)`: normalised contours, components without identifiers, the same anchors and metadata, generation count plus one |
| GlyphMath.DrawContour | Lib/fontMath/mathGlyph.py:405-408 | drawing one contour into the pen appends its normalised form to the pen's contours and leaves the components alone |
| GlyphMath.GlyphEqualIff | Lib/fontMath/mathGlyph.py:383-401 | `__cmp__` reports no difference iff the glyphs agree on every field except the generation count |
| GlyphMath.CopyTwice | Lib/fontMath/mathGlyph.py:274-276 | a copy has no lines and can be copied again, and the copy of a copy compares equal to it |
| GlyphMath.CopyEqual | Lib/fontMath/mathGlyph.py:383-401 | a glyph whose contours are non-empty and line-free, and whose components have no identifiers, compares equal to its copy |
| AsWritten.ProcessMathOneAsWrittenFails | Lib/fontMath/mathGlyph.py:325-336 | as written, ± succeeds iff the corrected operation does and the first glyph has no anchors and no components; then both agree |
| AsWritten.AddMarkedGlyph | Lib/fontMath/mathGlyph.py:331 | a glyph with one anchor and one component cannot be added to itself as written, but can once corrected |
| AsWritten.ScaleGlyphAsWrittenFails | Lib/fontMath/mathGlyph.py:372 | as written, scaling any glyph with an anchor fails, even a multiplication the corrected operation performs |
| AsWritten.CopyAsWrittenFails | Lib/fontMath/mathGlyph.py:410 | as written, a copy succeeds iff the glyph has no components, and then agrees with the corrected copy |
| AsWritten.ComponentStructureAsWritten | Lib/fontMath/mathGlyph.py:260 | as written, the component structure has one entry per component, and every entry is the same dictionary key |
| AsWritten.ComponentStructureAsWrittenCounts | Lib/fontMath/mathGlyph.py:260 | as written, two component lists have the same structure iff they have the same length |
| AsWritten.ComponentStructureAsWrittenExample | Lib/fontMath/mathGlyph.py:260 | components on different base glyphs have equal structures as written and different ones corrected |
| PairingExamples.PairComponentsByIdentifier | Lib/fontMath/mathGlyph.py:653-676 | the documented identifier-first component pairing |
| PairingExamples.PairComponentsByBase | Lib/fontMath/mathGlyph.py:678-697 | the documented base-glyph component pairing |
| PairingExamples.PairAnchorsByIdentifier | Lib/fontMath/mathGlyph.py:519-542 | the documented identifier-first anchor pairing |
| PairingExamples.PairAnchorsByPosition | Lib/fontMath/mathGlyph.py:544-561 | the documented positional anchor pairing |
| PairingExamples.AnchorTreeGroups | Lib/fontMath/mathGlyph.py:479-498 | the documented grouping of anchors by name |
| GlyphMathExamples.CombineAnchorsExample | Lib/fontMath/mathGlyph.py:609-619 | the documented anchor sum |
| GlyphMathExamples.ScaleAnchorsExample | Lib/fontMath/mathGlyph.py:633-640 | the documented anchor scaling |
| GlyphMathExamples.CombineComponentsExample | Lib/fontMath/mathGlyph.py:733-744 | the documented component sum |
| GlyphMathExamples.ScaleComponentsExample | Lib/fontMath/mathGlyph.py:759-766 | the documented component scaling |

## Left out

- The weak reference `getRef` (Lib/fontMath/mathGlyph.py:235-252) depends on Python object lifetime and has no counterpart in the model.
- Bounding boxes (`box`, :266-272) and `draw` (:413-417) call fontTools and robofab pens that are not part of this model.
- Building a `MathGlyph` from a foreign glyph is left out: `__init__` calls `glyph.drawPoints` at :220-221, on the foreign glyph's object model. Reading contours through `MathGlyphPen` is modelled, and so is the copy path that uses it (`Copy`).
- Writing back through `extractGlyph` (:419-444) mutates a foreign glyph. The filter pen it uses is modelled, with the downstream pen recorded as a sequence of events.
- robofab's `addPt`, `subPt` and `mulPt` are taken as exact element-wise +, − and ×.
- Floating-point rounding is not modelled; numbers are exact reals.
- GlyphMath.ScaleGlyph: divides exactly. In Python 2, `/` on two integers floors. The source divides with `/` in `divPt` (:22-28), which scales points, anchors and transformations, and in the width update (:355). So with integer operands it floors: a width of 501 divided by 2 is 250 there and 250.5 in the model. The model divides exactly everywhere: points, anchors, transformations and width.
- The width `None` of an empty glyph (:216) is not modelled; widths are numbers.
- Lib values are copied, never interpreted, so they are an opaque map.
- The `_structure` cache (:207, :255) is never filled, so it is left out. `__repr__` (:380-381) is left out too.
- Python 2 dictionary iteration order in `_pairAnchors` (:566) is unspecified. `PairAnchors` takes the name order as an argument. Glyph math uses the order in which names first occur among the first glyph's anchors (`NameOrder`). Every proved property except the order of the result holds for any order without repeats.
- The stale `identifier` assignment at :598 is overwritten at :599 before use, and has no effect.
- `list.remove` removes the first element equal to the matched one. The model removes the matched element itself. These are the same, because the match is the first element satisfying the test, and an equal element also satisfies it.
- The generation count of a glyph rebuilt from another `MathGlyph` is that glyph's plus one (:243). The count of a glyph read from a foreign glyph starts at zero. Only the first case arises inside the model.
- Normalizer.MathGlyphPen.EndPath, Normalizer.MathGlyphPen.FlushContour: require the buffered contour to be normalisable: non-empty, and not starting with off-curves that are followed by a line. The source raises on an empty contour (:48). In the second case it emits a control at coordinate `None` (:75), a value outside the coordinate domain.
- Normalizer.ConvertContour, Normalizer.ConvertFirstPoint: the same requirement as `EndPath`, for the same reason.
- RedundancyFilter.FilterRedundantPointPen.EndPath, RedundancyFilter.FilterRedundantPointPen.FlushContour, RedundancyFilter.FilterFirstPoint, RedundancyFilter.FilterContour: require a non-empty buffer or contour; the source raises on an empty contour (:116).
- Types.Anchor, Structure.AnchorStructure, GlyphMath.GlyphDiffers: an anchor is a record with exactly the five keys name, x, y, identifier and color. In the source an anchor is a dictionary that may lack keys or carry others. `_anchorTree` reads the name, identifier and color with `.get` (:504-506). `_get_structure` reads `anchor["name"]` (:261) and raises on an anchor without a name. `__cmp__` compares whole dictionaries (:399). Extra keys survive the scalar operation's `dict(anchor)` copy (:643), but are dropped when `_pairAnchors` rebuilds each anchor (:583-599). None of these differences is modelled.
- GlyphMath.AddZero, GlyphMath.AddSelfIsDouble: state the anchors as a multiset. The result lists the anchors grouped by name, in first-occurrence name order. It equals the other side as a sequence only when the anchors are already grouped that way. For example, names a, b, a give the sums of the first a, the second a, then b, where doubling keeps a, b, a.
- GlyphMath.SubUndoesAdd: states contours and width only. Pairing drops unmatched anchors and components, so in general (g1 + g2) − g2 does not restore them.
- GlyphMath.CopyGlyph: requires normalisable contours, as `EndPath` does.
- GlyphMath.DrawContour: requires a normalisable contour, as `EndPath` does.

## Findings

| source | as written | input that shows it | evidently intended | confidence | as-written member | corrected member |
|---|---|---|---|---|---|---|
| Lib/fontMath/mathGlyph.py:331 | `_processMathOneAnchors(anchorPairs)` omits the point function, so the call raises a missing-argument error | any first operand with an anchor, e.g. `AsWritten.MarkedGlyph` added to itself (`AsWritten.AddMarkedGlyph`) | the anchor pairs are combined with `addPt` or `subPt` | not executed | AsWritten.ProcessMathOneAsWritten | GlyphMath.ProcessMathOne |
| Lib/fontMath/mathGlyph.py:335-336 | `other.components` names an undefined variable, so the call raises a name error. The next line, `_processMathOneComponents(componentPairs)`, also omits the point function. It would raise a missing-argument error once the name is fixed, so as written the name error masks it | a first operand with a component and no anchor (`AsWritten.ProcessMathOneAsWrittenFails`) | the other glyph's components, `otherGlyph.components`, combined by `_processMathOneComponents(componentPairs, funct)` | not executed | AsWritten.ProcessMathOneAsWritten | GlyphMath.ProcessMathOne |
| Lib/fontMath/mathGlyph.py:372 | `_processMathTwoAnchors(anchor, …)` names an undefined variable, so scaling raises a name error | any glyph with an anchor, times 2 (`AsWritten.ScaleGlyphAsWrittenFails`) | the glyph's own anchors, `self.anchors` | not executed | AsWritten.ScaleGlyphAsWritten | GlyphMath.ScaleGlyph |
| Lib/fontMath/mathGlyph.py:410 | unpacks each three-key component dictionary into two names, which raises a too-many-values error | any glyph with a component (`AsWritten.CopyAsWrittenFails`) | draw each component from its `baseGlyph` and `transformation` entries | not executed | AsWritten.CopyAsWritten | GlyphMath.Copy |
| Lib/fontMath/mathGlyph.py:260 | unpacks each three-key component dictionary into three names, so every entry of the structure is the same key, not the base glyph | one component on glyph "a" against one on glyph "b" (`AsWritten.ComponentStructureAsWrittenExample`) | the list of `component["baseGlyph"]` | not executed | AsWritten.ComponentStructureAsWritten | Structure.ComponentStructure |
