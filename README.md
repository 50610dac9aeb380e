# Zone geometry and plate-number helpers, modelled in Dafny

This project models three TypeScript utility files of a web front end:

- `geometry-utils.ts` tests drawn zones. It has the orientation of three
  points, segment intersection, a point-on-segment test with tolerance, and
  a point-in-triangle test. It classifies how a segment meets one edge of a
  polygon, using the interior/exterior angle rules at vertices. It counts
  the crossings of a line with a polygon, with an optional stopping limit.
  On top of these sit point-in-polygon (by ray parity), line-crosses-polygon
  (after putting the polygon in a canonical clockwise form) and the
  self-intersection check for a polyline being drawn.
- `utils.ts` provides points and sizes, the half-open rectangle tests,
  exact point equality, the bounding box of a point list, distinct-by-key
  selection and lower-casing of a first letter.
- `plateNumberUtils.ts` unifies a registration number. Lower-case Latin
  letters become upper case, and the twelve Cyrillic letters that look like
  Latin ones become those Latin letters, as does every character whose
  upper case is one of them.

The files are modelled one to one: `geometry_utils.dfy` (module
`Geometry`), `utils.dfy` (module `Utils`) and `plate_number_utils.dfy`
(module `PlateNumberUtils`). Two files hold supporting modules:
`char_case.dfy` (module `CharCase`) has the part of JavaScript's case
mapping that is used, and `wrappers.dfy` (module `Wrappers`) has `Option`,
which stands for `null`.

Coordinates are exact `real`s. The tolerance of `isPointOnLine` (0.01) is
the constant `Tolerance`. `Number.MAX_VALUE` is the exact integer
`NumberMaxValue`. Pure functions of the source are Dafny functions whose
properties are proved as lemmas. The functions that loop (`forEach` or
`for`) are methods with loop invariants, proved against specification
functions:

- `CountLineIntersectionsOfPolygon` against `CrossingCount`;
- `NormalizePolygon` against `Normalized`;
- `SelectDistinct` against `FirstOccurrences`;
- `UnifyRegistrationNumber` against `Unified`.

Some facts about the code that the model makes explicit:

- `normolizePolygon` starts its walk at the last vertex that lowers the
  running minimum of x or of y. That vertex is a leftmost or a lowest one,
  but not necessarily the lowest of the leftmost vertices. See
  `Geometry.LowestIndexPrefersLastNewMinimum`.
- Canonicalisation is not idempotent as a sequence. The canonical form of
  (0, 1), (1, 0), (2, 2) is (1, 0), (2, 2), (0, 1), and the canonical form
  of that is the original triangle again. See `Geometry.NormalizedAlternates`.
- For a segment that starts on an edge at an exterior angle,
  `checkFromRibIntersection` does not report a crossing merely because
  both ends lie on the same rib. It uses "same rib" only to rule out
  "different ribs". See `Geometry.SameRibIsNoCrossing`.
- The comment at geometry-utils.ts:176 says the inner-angle test presumes a
  clockwise polygon. `isLineIntersectsPolygon` puts the polygon in the
  clockwise form first, but `isPointInsidePolygon` counts over the polygon
  as given.
- Canonicalisation can move the boundary by more than the tolerance. The
  small deviations of successive dropped vertices add up. See
  `Geometry.DriftMovesBoundary`.
- At an interior (reflex) angle, every pass through the vertex counts as a
  crossing if it does not start on the edge and does not also cover the
  edge's first vertex. That includes a pass that stays inside the polygon
  and only touches the vertex. See `Geometry.ReflexGrazeCrosses`.

## Model

| member | source | states |
|---|---|---|
| Geometry.OrientationOf | geometry-utils.ts:286-298 | colinear, clockwise or counter-clockwise exactly when the cross quantity is zero, negative or positive |
| Geometry.OrientationRotate | geometry-utils.ts:286-298 | rotating the three points keeps the orientation |
| Geometry.OrientationSwap | geometry-utils.ts:286-298 | exchanging the first two points mirrors the orientation |
| Geometry.OrientationReverse | geometry-utils.ts:286-298 | listing the three points in reverse mirrors the orientation |
| Geometry.OrientationDegenerate | geometry-utils.ts:286-298 | a repeated point makes the triple colinear |
| Geometry.OnColinearLine | geometry-utils.ts:271-280 | an accepted point is inside the segment's bounding box, and both endpoints are accepted |
| Geometry.Intersects | geometry-utils.ts:243-269 | two segments that share an endpoint intersect |
| Geometry.IntersectsSymmetric | geometry-utils.ts:243-269 | intersection does not depend on which segment is first |
| Geometry.IntersectsReversed | geometry-utils.ts:243-269 | intersection does not depend on the direction of either segment |
| Geometry.IsPointOnLine | geometry-utils.ts:302-316 | a point outside the x range is rejected, and the endpoints are accepted |
| Geometry.SlopeDeviationIsCross | geometry-utils.ts:312-315 | the slope-and-intercept deviation, times the segment's width, is the cross quantity |
| Geometry.IsPointOnLineIff | geometry-utils.ts:302-316 | accepted exactly when the point is in the x range and either the segment is vertical and the point is in its y range, or the cross quantity is below Tolerance times the segment's width |
| Geometry.ExactPointIsOnLine | geometry-utils.ts:302-316 | every point of the segment itself is accepted |
| Geometry.IsPointOnLineSymmetric | geometry-utils.ts:302-305 | the test does not depend on the direction of the segment |
| Geometry.TrigonTerms | geometry-utils.ts:232-241 | the three sign tests of the source are orientation quantities of the point against the sides ab, ca and bc |
| Geometry.IsPointInsideTrigon | geometry-utils.ts:225-241 | a point strictly inside the triangle is accepted for either winding, and an accepted point is inside the closed triangle |
| Geometry.StrictlyInsideReversed | geometry-utils.ts:225-241 | strict insideness does not depend on the winding |
| Geometry.IsInnerAngle | geometry-utils.ts:172-178 | inner exactly when the turn previous vertex, vertex, next vertex is counter-clockwise (cross quantity positive) |
| Geometry.InnerAngleReversed | geometry-utils.ts:172-178 | an angle is inner exactly when the walk taken backwards turns clockwise there |
| Geometry.VertexTouchAttributedToEndingEdge | geometry-utils.ts:66-71 | when the query touches only the first vertex of an edge, that edge reports no crossing, so a vertex is counted once |
| Geometry.IsLineIntersectsPolygonSegment | geometry-utils.ts:61-93 | an edge the query does not meet, whose second vertex is not on the query and on which the query does not start, reports no crossing |
| Geometry.CheckVertexIntersection | geometry-utils.ts:95-124 | a query ending exactly on the vertex never crosses there, at an interior or an exterior angle |
| Geometry.FromRibInnerWedgeEnd | geometry-utils.ts:130-143 | at an interior angle, a query that ends strictly inside the wedge, listed either way round, never crosses, wherever it starts |
| Geometry.CheckFromRibIntersection | geometry-utils.ts:126-170 | at an interior angle, a query that ends on a corner of the wedge never crosses |
| Geometry.SameRibIsNoCrossing | geometry-utils.ts:150-166 | both ends on the same rib, clear of the chord and the wedge, is no crossing |
| Geometry.CornerPassCrosses | geometry-utils.ts:95-124 | a query from inside the 10 by 10 square out through its corner (10, 10) crosses at the edge ending there |
| Geometry.CornerGrazeDoesNotCross | geometry-utils.ts:95-124 | a query grazing that corner from outside does not cross there |
| Geometry.ReflexGrazeCrosses | geometry-utils.ts:95-101 | a query inside an L-shaped polygon that only touches its reflex corner is reported as crossing there |
| Geometry.StepInFromRibCrosses | geometry-utils.ts:144-169 | a query from the middle of the square's right side going in crosses at that side |
| Geometry.StepOutFromRibDoesNotCross | geometry-utils.ts:144-169 | a query from the middle of the square's right side going out does not cross there |
| Geometry.VertexAtWraps | geometry-utils.ts:37-38 | for two or more vertices, the one-subtraction wrap is indexing modulo the number of vertices |
| Geometry.VerdictsAt | geometry-utils.ts:35-41 | the verdict sequence holds the classifier's answer for each edge, the edge from vertex i to the next with the vertex after |
| Geometry.CountTrueMonotone | geometry-utils.ts:35-45 | counting over more edges never gives fewer crossings |
| Geometry.CountTruePositive | geometry-utils.ts:35-45 | the count is positive exactly when some verdict is true |
| Geometry.CrossingCountPositive | geometry-utils.ts:31-48 | the crossing count is positive exactly when some edge reports a crossing |
| Geometry.EdgeVerdict | geometry-utils.ts:36-42 | the loop body computes the classifier's verdict for edge i |
| Geometry.CountLineIntersectionsOfPolygon | geometry-utils.ts:31-48 | with a negative limit, the full crossing count; with a positive limit, the count capped at the limit; with limit 0, 0 if the first edge does not cross and the full count otherwise; never more than the number of edges |
| Geometry.QuadrilateralCrossingCount | geometry-utils.ts:31-48 | the crossing count of a four-vertex polygon is the number of its four edges that report a crossing |
| Geometry.CornerPassMissesBottom | geometry-utils.ts:61-93 | the query through the square's corner reports nothing at the bottom edge |
| Geometry.CornerPassMissesLeft | geometry-utils.ts:61-93 | the query through the square's corner reports nothing at the left edge |
| Geometry.CornerPassIsOneCrossing | geometry-utils.ts:31-48 | over the whole square, the pass through the corner (10, 10) is counted exactly once |
| Geometry.IsPointOnPolygon | geometry-utils.ts:50-59 | true exactly when the point is on some edge of the closed polygon |
| Geometry.VertexIsOnPolygon | geometry-utils.ts:50-59 | every vertex is on the polygon |
| Geometry.VertexNotInside | geometry-utils.ts:3-10 | no vertex is reported inside its polygon |
| Geometry.IsPointInsidePolygon | geometry-utils.ts:3-10 | false on the boundary; otherwise true exactly when the ray from x = 0.9 * Number.MAX_VALUE at the point's height crosses an odd number of edges |
| Geometry.LowestScanInvariant | geometry-utils.ts:181-194 | the running minima bound every vertex scanned, and the chosen vertex attains one of them |
| Geometry.LowestIndexIsExtreme | geometry-utils.ts:181-194 | the starting vertex is a leftmost or a lowest vertex of the polygon |
| Geometry.LowestIndexPrefersLastNewMinimum | geometry-utils.ts:181-194 | for (0,1), (1,0), (2,2) the scan starts at (1,0), not the leftmost vertex |
| Geometry.LowestVertexIndex | geometry-utils.ts:181-194 | the scan returns the starting vertex of the canonical form |
| Geometry.SubsequenceElements | geometry-utils.ts:196-210 | a subsequence is no longer than its source and holds only its elements |
| Geometry.SimplifyExtends | geometry-utils.ts:196-210 | the simplification loop keeps the vertices it has kept and adds a subsequence of those still to visit |
| Geometry.NormalizedShape | geometry-utils.ts:180-211 | the canonical form is non-empty and no longer than the polygon; it starts at the starting vertex; it is a subsequence of the polygon read from there; and it holds only vertices of the polygon |
| Geometry.NormalizePolygon | geometry-utils.ts:180-211 | returns the canonical form, with the shape properties above |
| Geometry.NormalizedAlternates | geometry-utils.ts:180-211 | the canonical form of (0, 1), (1, 0), (2, 2) is (1, 0), (2, 2), (0, 1), whose canonical form is the original order |
| Geometry.DriftNormalized | geometry-utils.ts:180-211 | the canonical form of (0, 0), (1, .0033), (2, .0132), (3, .0297), (4, .0528), (4, 5), (0, 5) is (0, 0), (4, .0528), (4, 5), (0, 5): each bend vertex is within tolerance of the segment from (0, 0), so all three are dropped |
| Geometry.DriftMovesBoundary | geometry-utils.ts:180-211 | canonicalising moves the boundary by more than the tolerance: the vertex (2, .0132) of that polygon is on its boundary but .0132 away from the boundary of its canonical form |
| Geometry.ReverseInvolution | geometry-utils.ts:220 | reversing twice restores the order |
| Geometry.ClockwiseShape | geometry-utils.ts:213-223 | the result is the canonical form, reversed exactly when the turn at the given polygon's first vertex is counter-clockwise; non-empty; only original vertices |
| Geometry.PolygonToClockwise | geometry-utils.ts:213-223 | returns the clockwise form, non-empty and no longer than the polygon |
| Geometry.OnPolygonReverse | geometry-utils.ts:213-223 | reversing the vertex order does not move the boundary |
| Geometry.OnPolygonRotate | geometry-utils.ts:180-211 | starting the walk at another vertex does not move the boundary |
| Geometry.IsLineIntersectsPolygon | geometry-utils.ts:25-29 | true exactly when some edge of the clockwise form reports a crossing |
| Geometry.IsPolylineSelfIntersected | geometry-utils.ts:12-23 | false for fewer than two points; otherwise true exactly when the new segment meets an earlier non-adjacent segment, the new point is on the last segment, or the last segment's start is on the new segment |
| Geometry.RetracingIsSelfIntersection | geometry-utils.ts:12-23 | going back to either end of the last segment is a self-intersection |
| Geometry.ReturningToEarlierVertexIsSelfIntersection | geometry-utils.ts:12-23 | returning to any vertex before the last segment, the first included, is a self-intersection |
| Geometry.ClearExtensionIsAccepted | geometry-utils.ts:12-23 | a new segment clear of all earlier segments and, beyond tolerance, of the last one is accepted |
| Utils.IncludesPoint | utils.ts:19-22 | inside exactly when in the half-open box; only a box of positive size includes anything |
| Utils.IncludesPointHalfOpen | utils.ts:19-22 | the anchor is included exactly when the size is positive; the right and bottom sides are excluded |
| Utils.Intersects | utils.ts:24-29 | overlapping boxes have positive combined width and height |
| Utils.IntersectsSymmetric | utils.ts:24-29 | overlap does not depend on the order of the boxes |
| Utils.IncludedPointIntersects | utils.ts:19-29 | a positive box placed at an included point overlaps the including box |
| Utils.ArePointsEquals | utils.ts:448-450 | true exactly when the points are equal |
| Utils.ArePointsEqualsIsEquivalence | utils.ts:448-450 | reflexive, symmetric and transitive |
| Utils.GetMinMaxPos | utils.ts:432-446 | null exactly for an empty list; otherwise every point lies within the bounds and each bound is attained by some point |
| Utils.FirstOccurrences | utils.ts:348-362 | strictly increasing positions, each the first with its key, and every first occurrence is listed |
| Utils.FirstOccurrencesAreDistinctKeys | utils.ts:348-362 | the first occurrences have pairwise distinct keys and cover every key of the input |
| Utils.KeysOfMembers | utils.ts:352-358 | a key has been seen exactly when some item read so far has it |
| Utils.FirstOccurrencesStep | utils.ts:353-358 | reading an item records its key, and keeps its position exactly when the key is new |
| Utils.SelectDistinct | utils.ts:348-362 | one result per first occurrence, in order, made from that item; never more results than items |
| Utils.LowerFirstLetter | utils.ts:452-456 | null and the empty string are returned unchanged; otherwise the first character is lower-cased and the rest kept |
| Utils.LowerFirstLetterIdempotent | utils.ts:452-456 | applying it twice is the same as once |
| PlateNumberUtils.MapChar | plateNumberUtils.ts:14-37 | one character; digits and upper-case Latin letters kept; lower-case Latin upper-cased; the result is a digit, an upper-case Latin letter or the input |
| PlateNumberUtils.MapCharLookAlike | plateNumberUtils.ts:21-33 | each Cyrillic look-alike, upper or lower case, becomes its Latin letter |
| PlateNumberUtils.MapCharHistoric | plateNumberUtils.ts:15-33 | a historic Cyrillic letter whose upper case is a look-alike becomes that look-alike's Latin letter |
| PlateNumberUtils.MapCharOther | plateNumberUtils.ts:34-36 | a character that is not a digit or a Latin letter and whose upper case is not a look-alike is kept |
| PlateNumberUtils.MapCharIdempotent | plateNumberUtils.ts:14-37 | mapping a mapped character changes nothing |
| PlateNumberUtils.UnifiedAt | plateNumberUtils.ts:4-9 | the unified string has the input's length, with each character mapped in place |
| PlateNumberUtils.UnifiedIdempotent | plateNumberUtils.ts:1-12 | unifying a unified number changes nothing |
| PlateNumberUtils.UnifyRegistrationNumber | plateNumberUtils.ts:1-12 | null and empty numbers are returned unchanged; otherwise the result has the same length and each character mapped |
| CharCase.ToUpperChar | plateNumberUtils.ts:15 | Latin and Cyrillic small letters go to their capitals; the historic Cyrillic letters go to their capitals; other characters are kept |
| CharCase.ToLowerChar | utils.ts:455 | Latin, Latin-1, Greek and Cyrillic capitals go to their small letters; other characters are kept |
| CharCase.LowerCaseIdempotent | utils.ts:455 | lower-casing twice is the same as once |

## Left out

- The rest of `utils.ts` is not part of this model. That covers HTTP,
  dates, files, blobs, the DOM, debouncing, random ids, colours and the
  floating-point helpers (`distance`, `transformPoints`, `getCenterPos`,
  `getNearestPoint`, `toInteger`, `padNumber`). These are I/O, clock and
  browser code, or have no geometric content here.
- IEEE double rounding is not modelled. All arithmetic is exact, so the
  on-line tolerance and the orientation signs are exact too.
- Geometry.VertexAt: for a one-vertex polygon the source reads past the
  end of the array for the vertex after next, and then throws when the
  classifier uses it. The model reads vertex 0 there instead.
- Geometry.NormalizePolygon: requires a vertex, because the source reads
  `polygon[0]` and throws on an empty array. Geometry.PolygonToClockwise
  and Geometry.IsLineIntersectsPolygon require two vertices, because the
  source reads `polygon[1]`.
- Geometry.ClockwiseShape: does not prove that the result winds
  clockwise. The winding test looks at the first vertex of the polygon as
  given, and that only decides the winding when the vertex is convex. The
  model states the test as written.
- It is not proved that canonicalisation leaves crossing counts unchanged.
  The canonical form drops near-colinear vertices. Each one is tested
  against the segment from the last kept vertex, so the drift of successive
  dropped vertices adds up and the boundary can move by more than the
  tolerance (Geometry.DriftMovesBoundary). Only the effect of reversal and
  rotation on the boundary is proved (Geometry.OnPolygonReverse, Geometry.OnPolygonRotate).
- Geometry.IsPointInsidePolygon: stated as the parity rule of the code. It
  is not related to a geometric notion of interior.
- CharCase.ToUpperChar: covers Basic Latin, the Cyrillic block
  U+0400..U+045F and the historic Cyrillic letters U+1C80..U+1C88. Other
  scripts are treated as caseless, and multi-character expansions (such as
  'ß' to "SS") are ignored. Every character whose upper case is one of the
  twelve look-alikes is covered, so `MapChar` does not depend on the gap.
  Strings are sequences of Unicode scalar values, so lone UTF-16 surrogates
  cannot occur.
- CharCase.ToLowerChar: lower-cases only Basic Latin, the Latin-1
  capitals, the Greek capitals and the Cyrillic capitals U+0400..U+042F,
  one character to one. Other capitals, such as 'Ā' (U+0100), are kept,
  where JavaScript lower-cases them, and 'İ' stays one character, where
  JavaScript gives two code units.
- Utils.LowerFirstLetter: lower-cases only Basic Latin, the Latin-1
  capitals, the Greek capitals and the Cyrillic capitals U+0400..U+042F.
  Other capitals are kept, where JavaScript lower-cases
  them. 'İ' becomes two code units in JavaScript, so there the result is
  one longer than the input. The model keeps the length.
- Utils.SelectDistinct: keys are compared with Dafny equality. JavaScript's
  `Map` compares by SameValueZero, so objects are compared by reference and
  NaN equals NaN; this is not modelled.
- Utils.GetMinMaxPos: the source builds two fresh records and updates them
  in place. The model uses local values; their updates are not observable
  outside the function.
