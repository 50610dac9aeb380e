/** `geometry-utils.ts`: exact models of the planar predicates used to
    validate interactively drawn zones. Coordinates are reals, so every
    orientation and tolerance comparison is exact. */
module Geometry {
  import opened Utils

  /** A segment from `p1` to `p2`; direction matters to the classifier. */
  datatype Segment = Segment(p1: Point, p2: Point)

  /** The three answers of `orientation`, numbered 0, 1 and 2 in the source. */
  datatype Orientation = Colinear | Clockwise | CounterClockwise

  /** The absolute tolerance of `isPointOnLine`. */
  const Tolerance: real := 0.01

  /** `Number.MAX_VALUE`, the largest finite double, written out exactly. */
  const NumberMaxValue: real := 179769313486231570814527423731704356798070567525844996598917476803157260780028538760589558632766878171540458953514382464234321326889464182768467546703537516986049910576551282076245490090389328944075868508455133942304583236903222948165808559332123348274797826204144723168738177180919299881250404026184124858368.0

  /** The x coordinate at which `isPointInsidePolygon` starts its ray. */
  const RayEndX: real := NumberMaxValue * 0.9

  function Min(a: real, b: real): real { if a <= b then a else b }
  function Max(a: real, b: real): real { if a >= b then a else b }

  /** The quantity whose sign `orientation` reports. */
  function Cross(p: Point, q: Point, r: Point): real
  {
    (q.y - p.y) * (r.x - q.x) - (q.x - p.x) * (r.y - q.y)
  }

  /** `orientation(p, q, r)`: 0 (colinear) when the cross quantity is zero,
      1 (clockwise) when it is negative and 2 (counter-clockwise) when it is
      positive. */
  function OrientationOf(p: Point, q: Point, r: Point): (o: Orientation)
    ensures o == Colinear <==> (q.y - p.y) * (r.x - q.x) - (q.x - p.x) * (r.y - q.y) == 0.0
    ensures o == Clockwise <==> (q.y - p.y) * (r.x - q.x) - (q.x - p.x) * (r.y - q.y) < 0.0
    ensures o == CounterClockwise <==> (q.y - p.y) * (r.x - q.x) - (q.x - p.x) * (r.y - q.y) > 0.0
  {
    var v := Cross(p, q, r);
    if v == 0.0 then Colinear
    else if v < 0.0 then Clockwise
    else CounterClockwise
  }

  /** The orientation of the mirror-image turn. */
  function Mirror(o: Orientation): Orientation
  {
    match o
    case Colinear => Colinear
    case Clockwise => CounterClockwise
    case CounterClockwise => Clockwise
  }

  /** Rotating the three points does not change the turn. */
  lemma OrientationRotate(p: Point, q: Point, r: Point)
    ensures OrientationOf(p, q, r) == OrientationOf(q, r, p)
  {
    assert Cross(p, q, r) == Cross(q, r, p);
  }

  /** Exchanging the first two points mirrors the turn. */
  lemma OrientationSwap(p: Point, q: Point, r: Point)
    ensures OrientationOf(q, p, r) == Mirror(OrientationOf(p, q, r))
  {
    assert Cross(q, p, r) == -Cross(p, q, r);
  }

  /** Reversing the order of the three points mirrors the turn. */
  lemma OrientationReverse(p: Point, q: Point, r: Point)
    ensures OrientationOf(r, q, p) == Mirror(OrientationOf(p, q, r))
  {
    OrientationSwap(q, r, p);
    OrientationRotate(p, q, r);
    OrientationRotate(r, q, p);
  }

  /** A repeated point makes the triple colinear. */
  lemma OrientationDegenerate(p: Point, q: Point)
    ensures OrientationOf(p, q, q) == Colinear
    ensures OrientationOf(p, q, p) == Colinear
    ensures OrientationOf(p, p, q) == Colinear
  {
    assert Cross(p, q, p) == 0.0;
  }

  /** `onColinearLine`: is `q` within the bounding box of `line`? */
  function OnColinearLine(line: Segment, q: Point): (r: bool)
    ensures r ==> Min(line.p1.x, line.p2.x) <= q.x <= Max(line.p1.x, line.p2.x)
    ensures r ==> Min(line.p1.y, line.p2.y) <= q.y <= Max(line.p1.y, line.p2.y)
    ensures q == line.p1 || q == line.p2 ==> r
  {
    q.x <= Max(line.p1.x, line.p2.x) && q.x >= Min(line.p1.x, line.p2.x) &&
    q.y <= Max(line.p1.y, line.p2.y) && q.y >= Min(line.p1.y, line.p2.y)
  }

  /** `intersects`: the orientation test for two segments, with the four
      colinear special cases in which an endpoint of one segment lies in
      the bounding box of the other. */
  function Intersects(line1: Segment, line2: Segment): (r: bool)
    ensures line1.p1 == line2.p1 || line1.p1 == line2.p2 || line1.p2 == line2.p1 || line1.p2 == line2.p2 ==> r
  {
    var o1 := OrientationOf(line1.p1, line1.p2, line2.p1);
    var o2 := OrientationOf(line1.p1, line1.p2, line2.p2);
    var o3 := OrientationOf(line2.p1, line2.p2, line1.p1);
    var o4 := OrientationOf(line2.p1, line2.p2, line1.p2);
    assert line1.p1 == line2.p1 || line1.p2 == line2.p1 ==> o1 == Colinear by {
      OrientationDegenerate(line1.p1, line1.p2);
    }
    assert line1.p1 == line2.p2 || line1.p2 == line2.p2 ==> o2 == Colinear by {
      OrientationDegenerate(line1.p1, line1.p2);
    }
    if o1 != o2 && o3 != o4 then true
    else if o1 == Colinear && OnColinearLine(line1, line2.p1) then true
    else if o2 == Colinear && OnColinearLine(line1, line2.p2) then true
    else if o3 == Colinear && OnColinearLine(line2, line1.p1) then true
    else if o4 == Colinear && OnColinearLine(line2, line1.p2) then true
    else false
  }

  /** Segment intersection does not depend on which segment comes first. */
  lemma IntersectsSymmetric(a: Segment, b: Segment)
    ensures Intersects(a, b) == Intersects(b, a)
  {
  }

  /** Segment intersection does not depend on the direction of a segment. */
  lemma IntersectsReversed(a: Segment, b: Segment)
    ensures Intersects(a, b) == Intersects(Segment(a.p2, a.p1), b)
    ensures Intersects(a, b) == Intersects(a, Segment(b.p2, b.p1))
  {
    OrientationSwap(a.p1, a.p2, b.p1);
    OrientationSwap(a.p1, a.p2, b.p2);
    OrientationSwap(b.p1, b.p2, a.p1);
    OrientationSwap(b.p1, b.p2, a.p2);
  }

  function Abs(v: real): real { if v < 0.0 then -v else v }

  /** `isPointOnLine`: is `p` on `line`, up to an absolute vertical deviation
      below `Tolerance`? The endpoints are first ordered by x (the left one is
      `line.p1` unless `line.p2` is strictly further left); the rest of the
      test is `OnOrderedLine`. */
  function IsPointOnLine(line: Segment, p: Point): (r: bool)
    ensures p.x < Min(line.p1.x, line.p2.x) || p.x > Max(line.p1.x, line.p2.x) ==> !r
    ensures p == line.p1 || p == line.p2 ==> r
  {
    if line.p1.x <= line.p2.x then OnOrderedLine(line.p1, line.p2, p)
    else OnOrderedLine(line.p2, line.p1, p)
  }

  /** The test of `isPointOnLine` once its endpoints are ordered, p1.x <= p2.x:
      a point outside [p1.x, p2.x] is rejected; a vertical segment checks the
      y range; otherwise `p` is compared with the line through p1 and p2. */
  function OnOrderedLine(p1: Point, p2: Point, p: Point): (r: bool)
    requires p1.x <= p2.x
    ensures p.x < p1.x || p.x > p2.x ==> !r
    ensures p == p1 || p == p2 ==> r
  {
    if p.x < p1.x || p.x > p2.x then false
    else if p1.x == p2.x then Min(p1.y, p2.y) <= p.y && Max(p1.y, p2.y) >= p.y
    else Abs(SlopeDeviation(p1, p2, p)) < Tolerance
  }

  /** How far `p` lies above the line through p1 and p2, measured vertically
      as `isPointOnLine` does, from the slope and intercept of that line. */
  function SlopeDeviation(p1: Point, p2: Point, p: Point): (d: real)
    requires p1.x < p2.x
    ensures p == p1 || p == p2 ==> d == 0.0
  {
    var lineSlope := (p2.y - p1.y) / (p2.x - p1.x);
    var lineIntercept := p1.y - lineSlope * p1.x;
    assert lineSlope * (p2.x - p1.x) == p2.y - p1.y;
    lineSlope * p.x + lineIntercept - p.y
  }

  /** The vertical deviation, scaled by the width of the segment, is the
      cross quantity of `orientation`. */
  lemma SlopeDeviationIsCross(p1: Point, p2: Point, p: Point)
    requires p1.x < p2.x
    ensures (p2.x - p1.x) * SlopeDeviation(p1, p2, p) == Cross(p1, p2, p)
  {
    var dx := p2.x - p1.x;
    var dy := p2.y - p1.y;
    var lineSlope := dy / dx;
    var v := SlopeDeviation(p1, p2, p);
    assert lineSlope * dx == dy;
    assert v == lineSlope * (p.x - p1.x) - (p.y - p1.y);
    assert dx * v == dy * (p.x - p1.x) - dx * (p.y - p1.y);
  }

  /** The tolerance test stated without slopes: `p` lies in the x range of
      `line` and, for a vertical segment, in its y range; otherwise the cross
      quantity is below `Tolerance` times the width of the segment. */
  predicate NearSegment(line: Segment, p: Point)
  {
    var dx := line.p2.x - line.p1.x;
    Min(line.p1.x, line.p2.x) <= p.x <= Max(line.p1.x, line.p2.x) &&
    if dx == 0.0 then Min(line.p1.y, line.p2.y) <= p.y <= Max(line.p1.y, line.p2.y)
    else Abs(Cross(line.p1, line.p2, p)) < Tolerance * Abs(dx)
  }

  /** The slope-and-intercept test of `isPointOnLine` is the same as the
      cross-quantity test `NearSegment`. */
  lemma IsPointOnLineIff(line: Segment, p: Point)
    ensures IsPointOnLine(line, p) <==> NearSegment(line, p)
  {
    var p1 := if line.p1.x <= line.p2.x then line.p1 else line.p2;
    var p2 := if line.p1.x <= line.p2.x then line.p2 else line.p1;
    assert IsPointOnLine(line, p) == OnOrderedLine(p1, p2, p);
    if p1.x < p2.x && p1.x <= p.x <= p2.x {
      ScaledTolerance(p1, p2, p);
      assert Cross(line.p1, line.p2, p) == Cross(p1, p2, p) || Cross(line.p1, line.p2, p) == -Cross(p1, p2, p);
    }
  }

  /** The slope-and-intercept test on ordered endpoints, restated on the
      cross quantity. */
  lemma ScaledTolerance(p1: Point, p2: Point, p: Point)
    requires p1.x < p2.x
    ensures Abs(SlopeDeviation(p1, p2, p)) < Tolerance <==> Abs(Cross(p1, p2, p)) < Tolerance * (p2.x - p1.x)
  {
    SlopeDeviationIsCross(p1, p2, p);
    ScaleComparison(Abs(SlopeDeviation(p1, p2, p)), Abs(Cross(p1, p2, p)), p2.x - p1.x, Tolerance);
  }

  /** Comparing `a` with a bound is comparing `dx * a` with `dx` times the bound. */
  lemma ScaleComparison(a: real, c: real, dx: real, bound: real)
    requires dx > 0.0 && c == dx * a
    ensures a < bound <==> c < bound * dx
  {
    assert bound * dx - c == dx * (bound - a);
    if a < bound {
      assert dx * (bound - a) > 0.0;
    } else {
      assert dx * (bound - a) <= 0.0;
    }
  }

  /** Every point of the segment itself, found exactly by orientation and
      bounding box, is accepted by `isPointOnLine`. */
  lemma ExactPointIsOnLine(line: Segment, p: Point)
    requires OrientationOf(line.p1, line.p2, p) == Colinear
    requires OnColinearLine(line, p)
    ensures IsPointOnLine(line, p)
  {
    IsPointOnLineIff(line, p);
  }

  /** `isPointOnLine` does not depend on the order of the segment's endpoints. */
  lemma IsPointOnLineSymmetric(line: Segment, p: Point)
    ensures IsPointOnLine(line, p) == IsPointOnLine(Segment(line.p2, line.p1), p)
  {
  }

  /** `isPointInsideTrigon`: the same-side sign test of `s` against the
      triangle a, b, c, as the source computes it. A point strictly inside
      the triangle is accepted whichever way the triangle winds, and an
      accepted point is in the closed triangle. */
  function IsPointInsideTrigon(s: Point, a: Point, b: Point, c: Point): (r: bool)
    ensures StrictlyInside(s, a, b, c) || StrictlyInside(s, a, c, b) ==> r
    ensures r ==> ClosedInside(s, a, b, c)
  {
    TrigonTerms(s, a, b, c);
    StrictlyInsideReversed(s, a, c, b);
    var as_x := s.x - a.x;
    var as_y := s.y - a.y;
    var s_ab := (b.x - a.x) * as_y - (b.y - a.y) * as_x > 0.0;
    if ((c.x - a.x) * as_y - (c.y - a.y) * as_x > 0.0) == s_ab then false
    else if ((c.x - b.x) * (s.y - b.y) - (c.y - b.y) * (s.x - b.x) > 0.0) != s_ab then false
    else true
  }

  /** `s` is strictly inside the triangle a, b, c: it turns the same way,
      and not colinearly, from each of the three sides taken in order. */
  predicate StrictlyInside(s: Point, a: Point, b: Point, c: Point)
  {
    var o := OrientationOf(a, b, s);
    o != Colinear && OrientationOf(b, c, s) == o && OrientationOf(c, a, s) == o
  }

  /** `s` is in the closed triangle a, b, c: no two sides see it on
      opposite sides. */
  predicate ClosedInside(s: Point, a: Point, b: Point, c: Point)
  {
    var os := [OrientationOf(a, b, s), OrientationOf(b, c, s), OrientationOf(c, a, s)];
    !(Clockwise in os && CounterClockwise in os)
  }

  /** The three sign tests of `isPointInsideTrigon`, written as orientations. */
  lemma TrigonTerms(s: Point, a: Point, b: Point, c: Point)
    ensures (b.x - a.x) * (s.y - a.y) - (b.y - a.y) * (s.x - a.x) == -Cross(a, b, s)
    ensures (c.x - a.x) * (s.y - a.y) - (c.y - a.y) * (s.x - a.x) == Cross(c, a, s)
    ensures (c.x - b.x) * (s.y - b.y) - (c.y - b.y) * (s.x - b.x) == -Cross(b, c, s)
  {
  }

  /** Strict interior does not depend on the winding of the triangle. */
  lemma StrictlyInsideReversed(s: Point, a: Point, b: Point, c: Point)
    ensures StrictlyInside(s, a, b, c) <==> StrictlyInside(s, a, c, b)
  {
    OrientationSwap(a, b, s);
    OrientationSwap(b, c, s);
    OrientationSwap(c, a, s);
  }

  /** `isInnerAngle`: the polygon turns counter-clockwise (orientation 2) at
      `polygonSegment.p2`; for a clockwise polygon that is an interior angle. */
  function IsInnerAngle(polygonSegment: Segment, nextPolygonPoint: Point): (r: bool)
    ensures r <==> Cross(polygonSegment.p1, polygonSegment.p2, nextPolygonPoint) > 0.0
  {
    OrientationOf(polygonSegment.p1, polygonSegment.p2, nextPolygonPoint) == CounterClockwise
  }

  /** Walking the wedge backwards turns an interior angle into a clockwise turn. */
  lemma InnerAngleReversed(a: Point, b: Point, c: Point)
    ensures IsInnerAngle(Segment(a, b), c) <==> OrientationOf(c, b, a) == Clockwise
  {
    OrientationReverse(a, b, c);
  }

  /** `isLineIntersectsPolygonSegment`: does `line` cross the boundary at the
      edge `polygonSegment` and its second vertex, whose successor on the
      polygon is `nextPolygonPoint`? A touch at a vertex is attributed only to
      the edge that ends there, so an edge whose first vertex, and not its
      second, is on `line` reports nothing. When `line` starts on the edge the
      from-rib rules decide; when the edge's second vertex is on `line` the
      vertex rules decide; otherwise the segments must properly cross, with
      neither end of `line` on the edge. Whatever the rule, an edge that
      `line` does not meet, whose second vertex is not on `line` and on which
      `line` does not start, reports nothing. */
  function IsLineIntersectsPolygonSegment(line: Segment, polygonSegment: Segment, nextPolygonPoint: Point): (r: bool)
    ensures r ==> Intersects(line, polygonSegment) || IsPointOnLine(polygonSegment, line.p1) || IsPointOnLine(line, polygonSegment.p2)
  {
    var vertex1OnLine := IsPointOnLine(line, polygonSegment.p1);
    var vertex2OnLine := IsPointOnLine(line, polygonSegment.p2);
    if !vertex2OnLine && vertex1OnLine then false
    else if IsPointOnLine(polygonSegment, line.p1) then
      CheckFromRibIntersection(line, polygonSegment, nextPolygonPoint)
    else if vertex2OnLine then
      CheckVertexIntersection(line, polygonSegment, nextPolygonPoint)
    else
      !IsPointOnLine(polygonSegment, line.p1) &&
      !IsPointOnLine(polygonSegment, line.p2) &&
      Intersects(line, polygonSegment)
  }

  /** A touch at a vertex is attributed only to the edge that ends there:
      an edge whose first vertex, but not its second, is on the query
      reports no crossing, so the vertex is not counted twice. */
  lemma VertexTouchAttributedToEndingEdge(line: Segment, edge: Segment, next: Point)
    requires IsPointOnLine(line, edge.p1) && !IsPointOnLine(line, edge.p2)
    ensures !IsLineIntersectsPolygonSegment(line, edge, next)
  {
  }

  /** `checkVertexIntersection`: `line` passes through the edge's second vertex.
      A query that ends exactly on the vertex never crosses there. At an
      interior angle any other pass crosses. At an exterior angle a query that
      also touches a neighbouring vertex slides along the boundary and does
      not cross; otherwise it crosses exactly when it crosses the chord from
      the edge's first vertex to the next vertex or ends inside the wedge.
      So a query that stops exactly on the vertex is tangential, not a
      crossing, at an interior and at an exterior angle alike. */
  function CheckVertexIntersection(line: Segment, polygonSegment: Segment, nextPolygonPoint: Point): (r: bool)
    ensures r ==> line.p2 != polygonSegment.p2
  {
    if IsInnerAngle(polygonSegment, nextPolygonPoint) then
      !ArePointsEquals(line.p2, polygonSegment.p2)
    else if ArePointsEquals(line.p2, polygonSegment.p2) then false
    else if IsPointOnLine(line, polygonSegment.p1) || IsPointOnLine(line, nextPolygonPoint) then false
    else if Intersects(line, Segment(polygonSegment.p1, nextPolygonPoint)) ||
            IsPointInsideTrigon(line.p2, polygonSegment.p1, polygonSegment.p2, nextPolygonPoint) then true
    else false
  }

  /** Both ends of `line` on the same rib of the wedge at the edge's second
      vertex: the edge itself, or the edge from there to the next vertex. */
  predicate EndsOnSameRib(line: Segment, polygonSegment: Segment, nextPolygonPoint: Point)
  {
    var rib := Segment(polygonSegment.p1, polygonSegment.p2);
    var nextRib := Segment(polygonSegment.p2, nextPolygonPoint);
    (IsPointOnLine(rib, line.p1) && IsPointOnLine(rib, line.p2)) ||
    (IsPointOnLine(nextRib, line.p1) && IsPointOnLine(nextRib, line.p2))
  }

  /** `checkFromRibIntersection`: `line` starts on the edge. At an interior
      angle it crosses unless it crosses the chord from the edge's first
      vertex to the next vertex, ends inside the wedge, or ends on either rib.
      At an exterior angle it crosses when it crosses that chord without
      touching the chord's ends, when its ends lie on different ribs, or when
      it ends inside the wedge; otherwise it does not. At an interior angle,
      therefore, a query that ends on one of the three corners of the wedge
      never crosses. */
  function CheckFromRibIntersection(line: Segment, polygonSegment: Segment, nextPolygonPoint: Point): (r: bool)
    ensures IsInnerAngle(polygonSegment, nextPolygonPoint) ==>
      line.p2 == polygonSegment.p1 || line.p2 == polygonSegment.p2 || line.p2 == nextPolygonPoint ==> !r
  {
    if IsInnerAngle(polygonSegment, nextPolygonPoint) then
      if Intersects(line, Segment(polygonSegment.p1, nextPolygonPoint)) then false
      else if IsPointInsideTrigon(line.p2, polygonSegment.p1, polygonSegment.p2, nextPolygonPoint) ||
              IsPointOnLine(Segment(polygonSegment.p2, nextPolygonPoint), line.p2) ||
              IsPointOnLine(Segment(polygonSegment.p1, polygonSegment.p2), line.p2) then false
      else true
    else
      if !IsPointOnLine(line, polygonSegment.p1) &&
         !IsPointOnLine(line, nextPolygonPoint) &&
         Intersects(line, Segment(polygonSegment.p1, nextPolygonPoint)) then true
      else
        var rib := Segment(polygonSegment.p1, polygonSegment.p2);
        var nextRib := Segment(polygonSegment.p2, nextPolygonPoint);
        var p1OnRib := IsPointOnLine(rib, line.p1);
        var p1OnNextRib := IsPointOnLine(nextRib, line.p1);
        var p2OnRib := IsPointOnLine(rib, line.p2);
        var p2OnNextRib := IsPointOnLine(nextRib, line.p2);
        var onSameRib := (p1OnRib && p2OnRib) || (p1OnNextRib && p2OnNextRib);
        var onDifferentRib := !onSameRib && ((p1OnRib && p2OnNextRib) || (p2OnRib && p1OnNextRib));
        if onDifferentRib ||
           IsPointInsideTrigon(line.p2, polygonSegment.p1, polygonSegment.p2, nextPolygonPoint) then true
        else false
  }

  /** At an interior angle, a query that ends strictly inside the wedge
      previous vertex, vertex, next vertex never crosses there, wherever it
      starts and whichever way the wedge is listed. */
  lemma FromRibInnerWedgeEnd(line: Segment, edge: Segment, next: Point)
    requires IsInnerAngle(edge, next)
    requires StrictlyInside(line.p2, edge.p1, edge.p2, next) || StrictlyInside(line.p2, edge.p1, next, edge.p2)
    ensures !CheckFromRibIntersection(line, edge, next)
  {
    assert IsPointInsideTrigon(line.p2, edge.p1, edge.p2, next);
  }

  /** At an exterior angle, a query that starts and ends on the same rib
      without crossing the chord and without ending inside the wedge is not
      a crossing: sharing a rib alone does not register one. */
  lemma SameRibIsNoCrossing(line: Segment, polygonSegment: Segment, nextPolygonPoint: Point)
    requires !IsInnerAngle(polygonSegment, nextPolygonPoint)
    requires EndsOnSameRib(line, polygonSegment, nextPolygonPoint)
    requires !Intersects(line, Segment(polygonSegment.p1, nextPolygonPoint))
    requires !IsPointInsideTrigon(line.p2, polygonSegment.p1, polygonSegment.p2, nextPolygonPoint)
    ensures !CheckFromRibIntersection(line, polygonSegment, nextPolygonPoint)
  {
  }

  /** Vertex `j` of the closed polygon, for `j` at most one past the end:
      an index past the end is wrapped by one subtraction of the length.
      This is the vertex the source reads, except for a single-vertex
      polygon and `j == 2`, where the source reads past the end of the
      array and the model reads vertex 0. */
  function VertexAt(polygon: seq<Point>, j: nat): Point
    requires 0 < |polygon| && j <= |polygon| + 1
  {
    if j < |polygon| then polygon[j]
    else if j - |polygon| < |polygon| then polygon[j - |polygon|]
    else polygon[0]
  }

  /** For a polygon of at least two vertices, `VertexAt` is indexing modulo
      the number of vertices. */
  lemma VertexAtWraps(polygon: seq<Point>, j: nat)
    requires 1 < |polygon| && j <= |polygon| + 1
    ensures VertexAt(polygon, j) == polygon[j % |polygon|]
  {
    if |polygon| <= j {
      assert j == 1 * |polygon| + (j - |polygon|);
    }
  }

  /** The classifier's verdict for the edge that starts at vertex `i`. */
  predicate EdgeCrosses(line: Segment, polygon: seq<Point>, i: nat)
    requires i < |polygon|
  {
    IsLineIntersectsPolygonSegment(line, Segment(polygon[i], VertexAt(polygon, i + 1)), VertexAt(polygon, i + 2))
  }

  /** The classifier's verdicts for the edges from edge `k` on, in order. */
  function VerdictsFrom(line: Segment, polygon: seq<Point>, k: nat): (v: seq<bool>)
    requires k <= |polygon|
    ensures |v| == |polygon| - k
    decreases |polygon| - k
  {
    if k == |polygon| then [] else [EdgeCrosses(line, polygon, k)] + VerdictsFrom(line, polygon, k + 1)
  }

  /** The classifier's verdict for every edge of the polygon, in order. */
  function Verdicts(line: Segment, polygon: seq<Point>): (v: seq<bool>)
    ensures |v| == |polygon|
  {
    VerdictsFrom(line, polygon, 0)
  }

  /** Entry `i - k` of the verdicts from edge `k` on is the verdict for edge `i`. */
  lemma {:induction false} VerdictsFromAt(line: Segment, polygon: seq<Point>, k: nat, i: nat)
    requires k <= i < |polygon|
    ensures VerdictsFrom(line, polygon, k)[i - k] == EdgeCrosses(line, polygon, i)
    decreases i - k
  {
    if k < i {
      VerdictsFromAt(line, polygon, k + 1, i);
    }
  }

  /** The verdicts are the classifier's answers, edge by edge. */
  lemma VerdictsAt(line: Segment, polygon: seq<Point>, i: nat)
    requires i < |polygon|
    ensures Verdicts(line, polygon)[i] == EdgeCrosses(line, polygon, i)
  {
    VerdictsFromAt(line, polygon, 0, i);
  }

  /** The number of `true` verdicts. */
  function CountTrue(v: seq<bool>): (c: nat)
    ensures c <= |v|
  {
    if v == [] then 0 else CountTrue(v[..|v| - 1]) + (if v[|v| - 1] then 1 else 0)
  }

  /** Counting over a longer prefix never gives fewer. */
  lemma {:induction false} CountTrueMonotone(v: seq<bool>, j: nat, k: nat)
    requires j <= k <= |v|
    ensures CountTrue(v[..j]) <= CountTrue(v[..k])
    decreases k - j
  {
    if j < k {
      CountTrueMonotone(v, j, k - 1);
      assert v[..k][..k - 1] == v[..k - 1];
    }
  }

  /** The count is positive exactly when some verdict is `true`. */
  lemma {:induction false} CountTruePositive(v: seq<bool>)
    ensures CountTrue(v) > 0 <==> exists i :: 0 <= i < |v| && v[i]
  {
    if v != [] {
      var init := v[..|v| - 1];
      CountTruePositive(init);
      if exists i :: 0 <= i < |init| && init[i] {
        var i :| 0 <= i < |init| && init[i];
        assert v[i];
      }
      if exists i :: 0 <= i < |v| && v[i] {
        var i :| 0 <= i < |v| && v[i];
        if i < |init| {
          assert init[i];
        }
      }
    }
  }

  /** The number of edges of the whole polygon at which `line` crosses. */
  function CrossingCount(line: Segment, polygon: seq<Point>): nat
  {
    CountTrue(Verdicts(line, polygon))
  }

  /** The crossing count is positive exactly when the classifier reports a
      crossing at some edge. */
  lemma CrossingCountPositive(line: Segment, polygon: seq<Point>)
    ensures CrossingCount(line, polygon) > 0 <==> exists i :: 0 <= i < |polygon| && EdgeCrosses(line, polygon, i)
  {
    var v := Verdicts(line, polygon);
    CountTruePositive(v);
    if exists i :: 0 <= i < |v| && v[i] {
      var i :| 0 <= i < |v| && v[i];
      VerdictsAt(line, polygon, i);
    }
    if exists i :: 0 <= i < |polygon| && EdgeCrosses(line, polygon, i) {
      var i :| 0 <= i < |polygon| && EdgeCrosses(line, polygon, i);
      VerdictsAt(line, polygon, i);
    }
  }

  /** The body of the loop of `countLineIntersectionsOfPolygon` for edge
      `i`: the edge from vertex `i` to the next one, and the vertex after
      that, handed to the classifier. */
  method EdgeVerdict(line: Segment, polygon: seq<Point>, i: nat) returns (crosses: bool)
    requires i < |polygon|
    ensures crosses == Verdicts(line, polygon)[i]
  {
    var p1 := polygon[i];
    var p2 := VertexAt(polygon, i + 1);
    var p3 := VertexAt(polygon, i + 2);
    crosses := IsLineIntersectsPolygonSegment(line, Segment(p1, p2), p3);
    VerdictsAt(line, polygon, i);
  }

  /** `countLineIntersectionsOfPolygon`: walks the edges in order, counting
      those the classifier reports, and stops as soon as the count equals
      `maxIntersections`. A negative limit never stops the walk; a positive
      one caps the count; a limit of zero stops after the first edge if that
      edge does not cross, and otherwise never. */
  method CountLineIntersectionsOfPolygon(line: Segment, polygon: seq<Point>, maxIntersections: int)
    returns (intersections: nat)
    ensures intersections <= |polygon|
    ensures maxIntersections < 0 ==> intersections == CrossingCount(line, polygon)
    ensures maxIntersections > 0 ==>
      intersections == if CrossingCount(line, polygon) < maxIntersections then CrossingCount(line, polygon) else maxIntersections
    ensures maxIntersections == 0 ==>
      intersections == if |polygon| > 0 && !Verdicts(line, polygon)[0] then 0 else CrossingCount(line, polygon)
  {
    ghost var verdicts := Verdicts(line, polygon);
    intersections := 0;
    var i := 0;
    while i < |polygon|
      invariant i <= |polygon|
      invariant intersections == CountTrue(verdicts[..i])
      invariant maxIntersections > 0 ==> intersections < maxIntersections
      invariant maxIntersections == 0 && i > 0 ==> verdicts[0]
    {
      var crosses := EdgeVerdict(line, polygon, i);
      assert verdicts[..i + 1][..i] == verdicts[..i];
      if crosses {
        intersections := intersections + 1;
      }
      if intersections == maxIntersections {
        CountTrueMonotone(verdicts, i + 1, |polygon|);
        CountTrueMonotone(verdicts, 1, i + 1);
        assert verdicts[..|polygon|] == verdicts;
        break;
      }
      i := i + 1;
    }
    assert verdicts[..|polygon|] == verdicts;
  }

  /** The lemmas below work through the classifier on two polygons. Both
      are listed the way `polygonToClockwise` leaves them: seen from the
      orientation convention of the source, every convex corner is an
      exterior angle and every reflex corner an interior one. */

  /** The 10 by 10 square; its four corners are exterior angles. */
  const Square: seq<Point> := [Point(0.0, 0.0), Point(10.0, 0.0), Point(10.0, 10.0), Point(0.0, 10.0)]

  /** 1 for a crossing edge, 0 otherwise. */
  function Indicator(b: bool): nat
  {
    if b then 1 else 0
  }

  /** The crossing count of a quadrilateral, edge by edge. */
  lemma QuadrilateralCrossingCount(line: Segment, polygon: seq<Point>)
    requires |polygon| == 4
    ensures CrossingCount(line, polygon) ==
      Indicator(IsLineIntersectsPolygonSegment(line, Segment(polygon[0], polygon[1]), polygon[2])) +
      Indicator(IsLineIntersectsPolygonSegment(line, Segment(polygon[1], polygon[2]), polygon[3])) +
      Indicator(IsLineIntersectsPolygonSegment(line, Segment(polygon[2], polygon[3]), polygon[0])) +
      Indicator(IsLineIntersectsPolygonSegment(line, Segment(polygon[3], polygon[0]), polygon[1]))
  {
    var v := Verdicts(line, polygon);
    VerdictsAt(line, polygon, 0);
    VerdictsAt(line, polygon, 1);
    VerdictsAt(line, polygon, 2);
    VerdictsAt(line, polygon, 3);
    assert v[..4] == v;
    assert v[..4][..3] == v[..3];
    assert v[..3][..2] == v[..2];
    assert v[..2][..1] == v[..1];
    assert CountTrue(v[..1]) == Indicator(v[0]);
    assert CountTrue(v[..2]) == CountTrue(v[..1]) + Indicator(v[1]);
    assert CountTrue(v[..3]) == CountTrue(v[..2]) + Indicator(v[2]);
    assert CountTrue(v) == CountTrue(v[..3]) + Indicator(v[3]);
  }

  /** A query from inside the square out through its corner (10, 10)
      crosses at the edge that ends there: the exterior-angle vertex rule
      finds it crossing the chord from (10, 0) to (0, 10). */
  lemma CornerPassCrosses()
    ensures IsLineIntersectsPolygonSegment(
      Segment(Point(5.0, 5.0), Point(15.0, 15.0)), Segment(Point(10.0, 0.0), Point(10.0, 10.0)), Point(0.0, 10.0))
  {
    var line := Segment(Point(5.0, 5.0), Point(15.0, 15.0));
    var edge := Segment(Point(10.0, 0.0), Point(10.0, 10.0));
    var next := Point(0.0, 10.0);
    assert !IsPointOnLine(line, edge.p1);
    assert !IsPointOnLine(edge, line.p1);
    assert IsPointOnLine(line, edge.p2);
    assert !IsInnerAngle(edge, next);
    assert !IsPointOnLine(line, next);
    assert OrientationOf(edge.p1, next, line.p1) == Colinear && OnColinearLine(Segment(edge.p1, next), line.p1);
    assert Intersects(line, Segment(edge.p1, next));
  }

  /** A query that grazes the square's corner (10, 10) from outside is a
      tangent: the exterior-angle vertex rule reports no crossing. */
  lemma CornerGrazeDoesNotCross()
    ensures !IsLineIntersectsPolygonSegment(
      Segment(Point(5.0, 15.0), Point(15.0, 5.0)), Segment(Point(10.0, 0.0), Point(10.0, 10.0)), Point(0.0, 10.0))
  {
    var line := Segment(Point(5.0, 15.0), Point(15.0, 5.0));
    var edge := Segment(Point(10.0, 0.0), Point(10.0, 10.0));
    var next := Point(0.0, 10.0);
    assert !IsInnerAngle(edge, next);
    assert !IsPointOnLine(line, edge.p1);
    assert !IsPointOnLine(line, next);
    assert !IsPointOnLine(edge, line.p1);
    assert OrientationOf(line.p1, line.p2, edge.p1) == OrientationOf(line.p1, line.p2, next);
    assert !Intersects(line, Segment(edge.p1, next));
    assert !IsPointInsideTrigon(line.p2, edge.p1, edge.p2, next);
  }

  /** A query lying inside the L-shaped polygon (0, 0), (20, 0), (20, 10),
      (10, 10), (10, 20), (0, 20) that touches its boundary only at the
      reflex corner (10, 10) is reported as crossing there: at an interior
      angle the vertex rule counts every pass through the vertex that does
      not stop on it. */
  lemma ReflexGrazeCrosses()
    ensures IsLineIntersectsPolygonSegment(
      Segment(Point(5.0, 15.0), Point(15.0, 5.0)), Segment(Point(20.0, 10.0), Point(10.0, 10.0)), Point(10.0, 20.0))
  {
    var line := Segment(Point(5.0, 15.0), Point(15.0, 5.0));
    var edge := Segment(Point(20.0, 10.0), Point(10.0, 10.0));
    assert !IsPointOnLine(line, edge.p1);
    assert !IsPointOnLine(edge, line.p1);
    assert IsPointOnLine(line, edge.p2);
    assert IsInnerAngle(edge, Point(10.0, 20.0));
  }

  /** A query that starts in the middle of the square's right side and goes
      in crosses there: the exterior-angle from-rib rule, which decides every
      query starting on an edge, finds it reaching the chord from (10, 0) to
      (0, 10). */
  lemma StepInFromRibCrosses()
    ensures CheckFromRibIntersection(
      Segment(Point(10.0, 5.0), Point(5.0, 5.0)), Segment(Point(10.0, 0.0), Point(10.0, 10.0)), Point(0.0, 10.0))
  {
    StepInReachesChord();
    StepInAvoidsChordEnds();
    SquareRightCornerIsExterior();
  }

  /** The query of `StepInFromRibCrosses` passes through neither end of the
      chord from (10, 0) to (0, 10). */
  lemma StepInAvoidsChordEnds()
    ensures !IsPointOnLine(Segment(Point(10.0, 5.0), Point(5.0, 5.0)), Point(10.0, 0.0))
    ensures !IsPointOnLine(Segment(Point(10.0, 5.0), Point(5.0, 5.0)), Point(0.0, 10.0))
  {
  }

  /** The query of `StepInFromRibCrosses` ends on the chord from (10, 0) to
      (0, 10). */
  lemma StepInReachesChord()
    ensures Intersects(Segment(Point(10.0, 5.0), Point(5.0, 5.0)), Segment(Point(10.0, 0.0), Point(0.0, 10.0)))
  {
    var line := Segment(Point(10.0, 5.0), Point(5.0, 5.0));
    var chord := Segment(Point(10.0, 0.0), Point(0.0, 10.0));
    assert OrientationOf(line.p1, line.p2, chord.p1) == Clockwise;
    assert OrientationOf(line.p1, line.p2, chord.p2) == CounterClockwise;
    assert OrientationOf(chord.p1, chord.p2, line.p1) == CounterClockwise;
    assert OrientationOf(chord.p1, chord.p2, line.p2) == Colinear;
  }

  /** At the corner (10, 10), coming up the right side and turning to (0, 10),
      the square turns counter-clockwise: an exterior angle in the clockwise
      convention. */
  lemma SquareRightCornerIsExterior()
    ensures !IsInnerAngle(Segment(Point(10.0, 0.0), Point(10.0, 10.0)), Point(0.0, 10.0))
  {
  }

  /** A query that starts in the middle of the square's right side and goes
      out does not cross there: under the exterior-angle from-rib rule it
      misses the chord, has only its start on a rib and ends outside the
      wedge. */
  lemma StepOutFromRibDoesNotCross()
    ensures !CheckFromRibIntersection(
      Segment(Point(10.0, 5.0), Point(15.0, 5.0)), Segment(Point(10.0, 0.0), Point(10.0, 10.0)), Point(0.0, 10.0))
  {
    SquareRightCornerIsExterior();
    StepOutMissesChord();
    StepOutEndsOutside();
    StepOutTouchesOneRib();
  }

  /** The query of `StepOutFromRibDoesNotCross` meets the ribs at the corner
      (10, 10) only at its start: its end is on neither rib and its start is
      not on the top side. */
  lemma StepOutTouchesOneRib()
    ensures !IsPointOnLine(Segment(Point(10.0, 0.0), Point(10.0, 10.0)), Point(15.0, 5.0))
    ensures !IsPointOnLine(Segment(Point(10.0, 10.0), Point(0.0, 10.0)), Point(10.0, 5.0))
    ensures !IsPointOnLine(Segment(Point(10.0, 10.0), Point(0.0, 10.0)), Point(15.0, 5.0))
  {
  }

  /** The query of `StepOutFromRibDoesNotCross` misses the chord from (10, 0)
      to (0, 10). */
  lemma StepOutMissesChord()
    ensures !Intersects(Segment(Point(10.0, 5.0), Point(15.0, 5.0)), Segment(Point(10.0, 0.0), Point(0.0, 10.0)))
  {
    var line := Segment(Point(10.0, 5.0), Point(15.0, 5.0));
    var chord := Segment(Point(10.0, 0.0), Point(0.0, 10.0));
    assert OrientationOf(chord.p1, chord.p2, line.p1) == OrientationOf(chord.p1, chord.p2, line.p2) != Colinear;
    assert OrientationOf(line.p1, line.p2, chord.p1) != Colinear && OrientationOf(line.p1, line.p2, chord.p2) != Colinear;
  }

  /** The end (15, 5) of the query of `StepOutFromRibDoesNotCross` lies
      outside the wedge at the corner (10, 10). */
  lemma StepOutEndsOutside()
    ensures !IsPointInsideTrigon(Point(15.0, 5.0), Point(10.0, 0.0), Point(10.0, 10.0), Point(0.0, 10.0))
  {
  }

  /** The query of `CornerPassCrosses` misses the square's bottom edge. */
  lemma CornerPassMissesBottom()
    ensures !IsLineIntersectsPolygonSegment(
      Segment(Point(5.0, 5.0), Point(15.0, 15.0)), Segment(Point(0.0, 0.0), Point(10.0, 0.0)), Point(10.0, 10.0))
  {
    var line := Segment(Point(5.0, 5.0), Point(15.0, 15.0));
    var edge := Segment(Point(0.0, 0.0), Point(10.0, 0.0));
    assert !IsPointOnLine(line, edge.p2);
    assert !IsPointOnLine(edge, line.p1);
    assert OrientationOf(edge.p1, edge.p2, line.p1) == OrientationOf(edge.p1, edge.p2, line.p2);
    assert !OnColinearLine(line, edge.p1);
    assert !Intersects(line, edge);
  }

  /** The query of `CornerPassCrosses` misses the square's left edge. */
  lemma CornerPassMissesLeft()
    ensures !IsLineIntersectsPolygonSegment(
      Segment(Point(5.0, 5.0), Point(15.0, 15.0)), Segment(Point(0.0, 10.0), Point(0.0, 0.0)), Point(10.0, 0.0))
  {
    var line := Segment(Point(5.0, 5.0), Point(15.0, 15.0));
    var edge := Segment(Point(0.0, 10.0), Point(0.0, 0.0));
    assert !IsPointOnLine(line, edge.p2);
    assert !IsPointOnLine(edge, line.p1);
    assert OrientationOf(edge.p1, edge.p2, line.p1) == OrientationOf(edge.p1, edge.p2, line.p2);
    assert !Intersects(line, edge);
  }

  /** Over the whole square, the pass out through the corner (10, 10) is
      counted exactly once: the edge ending at the corner counts it and the
      edge starting there does not. */
  lemma CornerPassIsOneCrossing()
    ensures CrossingCount(Segment(Point(5.0, 5.0), Point(15.0, 15.0)), Square) == 1
  {
    var line := Segment(Point(5.0, 5.0), Point(15.0, 15.0));
    QuadrilateralCrossingCount(line, Square);
    CornerPassMissesBottom();
    CornerPassCrosses();
    VertexTouchAttributedToEndingEdge(line, Segment(Square[2], Square[3]), Square[0]);
    CornerPassMissesLeft();
  }

  /** Is `p` on some edge of the closed polygon? */
  predicate OnPolygon(p: Point, polygon: seq<Point>)
  {
    exists i :: 0 <= i < |polygon| && IsPointOnLine(Segment(polygon[i], VertexAt(polygon, i + 1)), p)
  }

  /** Every vertex of a polygon lies on its boundary. */
  lemma VertexIsOnPolygon(polygon: seq<Point>, i: nat)
    requires i < |polygon|
    ensures OnPolygon(polygon[i], polygon)
  {
    assert IsPointOnLine(Segment(polygon[i], VertexAt(polygon, i + 1)), polygon[i]);
  }

  /** `isPointOnPolygon`: scans the edges and answers true at the first one
      that `p` is on. */
  method IsPointOnPolygon(p: Point, polygon: seq<Point>) returns (r: bool)
    ensures r <==> OnPolygon(p, polygon)
  {
    for i := 0 to |polygon|
      invariant forall j :: 0 <= j < i ==> !IsPointOnLine(Segment(polygon[j], VertexAt(polygon, j + 1)), p)
    {
      var p1 := polygon[i];
      var p2 := VertexAt(polygon, i + 1);
      if IsPointOnLine(Segment(p1, p2), p) {
        return true;
      }
    }
    return false;
  }

  /** The horizontal ray of `isPointInsidePolygon`: from far to the right of
      `p`, at the height of `p`, ending at `p`. */
  function Ray(p: Point): Segment
  {
    Segment(Point(RayEndX, p.y), p)
  }

  /** The containment rule: a point on the boundary is outside; otherwise it
      is inside exactly when the ray crosses the boundary an odd number of times. */
  predicate PointInPolygon(p: Point, polygon: seq<Point>)
  {
    !OnPolygon(p, polygon) && CrossingCount(Ray(p), polygon) % 2 == 1
  }

  /** No vertex of a polygon is inside it. */
  lemma VertexNotInside(polygon: seq<Point>, i: nat)
    requires i < |polygon|
    ensures !PointInPolygon(polygon[i], polygon)
  {
    VertexIsOnPolygon(polygon, i);
  }

  /** `isPointInsidePolygon`: false on the boundary; otherwise the parity of
      the number of crossings of the ray, counted over all edges of the
      polygon as given. */
  method IsPointInsidePolygon(p: Point, polygon: seq<Point>) returns (r: bool)
    ensures OnPolygon(p, polygon) ==> !r
    ensures !OnPolygon(p, polygon) ==> (r <==> CrossingCount(Ray(p), polygon) % 2 == 1)
    ensures r == PointInPolygon(p, polygon)
  {
    var onPolygon := IsPointOnPolygon(p, polygon);
    if onPolygon {
      return false;
    }
    var line := Segment(Point(NumberMaxValue * 0.9, p.y), p);
    var intersections := CountLineIntersectionsOfPolygon(line, polygon, -1);
    return intersections % 2 == 1;
  }

  // Canonical form of a polygon

  /** The running state of the scan for the starting vertex: the index
      chosen so far and the smallest x and the smallest y met so far. */
  datatype Lowest = Lowest(index: nat, minX: real, minY: real)

  /** One step of the scan at vertex `index`: a new smallest x, and then a
      new smallest y, each move the chosen index to this vertex. */
  function ScanStep(acc: Lowest, index: nat, p: Point): Lowest
  {
    var afterX := if p.x < acc.minX then Lowest(index, p.x, acc.minY) else acc;
    if p.y < afterX.minY then Lowest(index, afterX.minX, p.y) else afterX
  }

  /** The scan state after the first `k` vertices. */
  function LowestScan(polygon: seq<Point>, k: nat): (sc: Lowest)
    requires 0 < |polygon| && k <= |polygon|
    ensures sc.index < |polygon|
  {
    if k == 0 then Lowest(0, polygon[0].x, polygon[0].y)
    else ScanStep(LowestScan(polygon, k - 1), k - 1, polygon[k - 1])
  }

  /** The vertex at which the canonical form starts. */
  function LowestIndex(polygon: seq<Point>): (m: nat)
    requires 0 < |polygon|
    ensures m < |polygon|
  {
    LowestScan(polygon, |polygon|).index
  }

  /** What the scan keeps: the two running minima bound every vertex met,
      and the chosen vertex attains one of them. */
  lemma {:induction false} LowestScanInvariant(polygon: seq<Point>, k: nat)
    requires 0 < |polygon| && k <= |polygon|
    ensures LowestScan(polygon, k).index < |polygon|
    ensures LowestScan(polygon, k).minX <= polygon[0].x && LowestScan(polygon, k).minY <= polygon[0].y
    ensures forall j :: 0 <= j < k ==>
      LowestScan(polygon, k).minX <= polygon[j].x && LowestScan(polygon, k).minY <= polygon[j].y
    ensures polygon[LowestScan(polygon, k).index].x == LowestScan(polygon, k).minX ||
            polygon[LowestScan(polygon, k).index].y == LowestScan(polygon, k).minY
  {
    if k > 0 {
      LowestScanInvariant(polygon, k - 1);
    }
  }

  /** The starting vertex is a leftmost vertex or a lowest vertex of the
      polygon (not necessarily the lowest of the leftmost ones). */
  lemma LowestIndexIsExtreme(polygon: seq<Point>)
    requires 0 < |polygon|
    ensures LowestIndex(polygon) < |polygon|
    ensures (forall j :: 0 <= j < |polygon| ==> polygon[LowestIndex(polygon)].x <= polygon[j].x) ||
            (forall j :: 0 <= j < |polygon| ==> polygon[LowestIndex(polygon)].y <= polygon[j].y)
  {
    LowestScanInvariant(polygon, |polygon|);
  }

  /** A later new minimum of y wins over an earlier minimum of x: here the
      starting vertex is the lowest one, `(1, 0)`, not the leftmost one. */
  lemma LowestIndexPrefersLastNewMinimum()
    ensures LowestIndex([Point(0.0, 1.0), Point(1.0, 0.0), Point(2.0, 2.0)]) == 1
  {
    var polygon := [Point(0.0, 1.0), Point(1.0, 0.0), Point(2.0, 2.0)];
    assert LowestScan(polygon, 1) == Lowest(0, 0.0, 1.0);
    assert LowestScan(polygon, 2) == Lowest(1, 0.0, 0.0);
  }

  /** The vertices read from position `m` on, wrapping around. */
  function Rotate(s: seq<Point>, m: nat): (r: seq<Point>)
    requires m <= |s|
    ensures |r| == |s|
    ensures forall k :: 0 <= k < |s| ==> r[k] == s[if m + k < |s| then m + k else m + k - |s|]
  {
    s[m..] + s[..m]
  }

  /** Is `a` obtained from `b` by dropping some elements? */
  predicate IsSubsequence(a: seq<Point>, b: seq<Point>)
    decreases |b|
  {
    |a| == 0 ||
    (|b| > 0 && ((a[0] == b[0] && IsSubsequence(a[1..], b[1..])) || IsSubsequence(a, b[1..])))
  }

  /** A subsequence is no longer than the sequence, and each of its elements
      is an element of the sequence. */
  lemma {:induction false} SubsequenceElements(a: seq<Point>, b: seq<Point>)
    requires IsSubsequence(a, b)
    ensures |a| <= |b|
    ensures forall k :: 0 <= k < |a| ==> a[k] in b
    decreases |b|
  {
    if |a| > 0 {
      if a[0] == b[0] && IsSubsequence(a[1..], b[1..]) {
        SubsequenceElements(a[1..], b[1..]);
        forall k | 0 <= k < |a|
          ensures a[k] in b
        {
          if k > 0 {
            assert a[k] == a[1..][k - 1];
            assert a[k] in b[1..];
          }
        }
      } else {
        SubsequenceElements(a, b[1..]);
        forall k | 0 <= k < |a|
          ensures a[k] in b
        {
          assert a[k] in b[1..];
        }
      }
    }
  }

  /** The remaining passes of the simplification loop of `normolizePolygon`
      over the rotated vertices `rot`, from pass `number` on, with `res` kept
      so far: a vertex is dropped when it is on the segment from the last
      kept vertex to the vertex after it (the first vertex after the last). */
  function Simplify(rot: seq<Point>, number: nat, res: seq<Point>): seq<Point>
    requires 0 < |res| && number <= |rot|
    decreases |rot| - number
  {
    if number == |rot| then res
    else
      var next := if number + 1 < |rot| then rot[number + 1] else rot[0];
      if IsPointOnLine(Segment(res[|res| - 1], next), rot[number]) then Simplify(rot, number + 1, res)
      else Simplify(rot, number + 1, res + [rot[number]])
  }

  /** The simplification loop keeps what it was given and appends a
      subsequence of the vertices it has still to visit. */
  lemma {:induction false} SimplifyExtends(rot: seq<Point>, number: nat, res: seq<Point>)
    requires 0 < |res| && number <= |rot|
    ensures |Simplify(rot, number, res)| >= |res|
    ensures Simplify(rot, number, res)[..|res|] == res
    ensures IsSubsequence(Simplify(rot, number, res)[|res|..], rot[number..])
    decreases |rot| - number
  {
    if number < |rot| {
      var next := if number + 1 < |rot| then rot[number + 1] else rot[0];
      var r := Simplify(rot, number, res);
      if IsPointOnLine(Segment(res[|res| - 1], next), rot[number]) {
        SimplifyExtends(rot, number + 1, res);
        assert rot[number..][1..] == rot[number + 1..];
      } else {
        var res' := res + [rot[number]];
        SimplifyExtends(rot, number + 1, res');
        assert r[..|res'|][..|res|] == r[..|res|];
        assert r[|res|..][0] == rot[number..][0];
        assert r[|res|..][1..] == r[|res'|..];
        assert rot[number..][1..] == rot[number + 1..];
      }
    } else {
      assert Simplify(rot, number, res)[|res|..] == [];
    }
  }

  /** The result of `normolizePolygon`: the vertices from the starting
      vertex on, with the vertices that lie on the segment joining their
      surviving neighbours dropped. */
  function Normalized(polygon: seq<Point>): seq<Point>
    requires 0 < |polygon|
  {
    var m := LowestIndex(polygon);
    Simplify(Rotate(polygon, m), 1, [polygon[m]])
  }

  /** The canonical form starts at the starting vertex, keeps the cyclic
      order of the vertices, and only drops some of them. */
  lemma NormalizedShape(polygon: seq<Point>)
    requires 0 < |polygon|
    ensures LowestIndex(polygon) < |polygon|
    ensures 0 < |Normalized(polygon)| <= |polygon|
    ensures Normalized(polygon)[0] == polygon[LowestIndex(polygon)]
    ensures IsSubsequence(Normalized(polygon), Rotate(polygon, LowestIndex(polygon)))
    ensures forall k :: 0 <= k < |Normalized(polygon)| ==> Normalized(polygon)[k] in polygon
  {
    var m := LowestIndex(polygon);
    LowestScanInvariant(polygon, |polygon|);
    var rot := Rotate(polygon, m);
    var r := Normalized(polygon);
    SimplifyExtends(rot, 1, [polygon[m]]);
    assert r[0] == rot[0];
    assert r[1..] == r[|[polygon[m]]|..];
    assert rot[1..] == rot[1..];
    assert IsSubsequence(r, rot);
    SubsequenceElements(r, rot);
    forall k | 0 <= k < |r|
      ensures r[k] in polygon
    {
      var i :| 0 <= i < |rot| && rot[i] == r[k];
    }
  }

  /** The canonical form is not idempotent as a sequence. For the triangle
      (0, 1), (1, 0), (2, 2) the walk starts at (1, 0); the canonical form
      of the result starts at (0, 1) again, so canonicalising twice gives
      the triangle back in its original order. */
  lemma NormalizedAlternates()
    ensures Normalized([Point(0.0, 1.0), Point(1.0, 0.0), Point(2.0, 2.0)]) == [Point(1.0, 0.0), Point(2.0, 2.0), Point(0.0, 1.0)]
    ensures Normalized([Point(1.0, 0.0), Point(2.0, 2.0), Point(0.0, 1.0)]) == [Point(0.0, 1.0), Point(1.0, 0.0), Point(2.0, 2.0)]
  {
    var a, b, c := Point(0.0, 1.0), Point(1.0, 0.0), Point(2.0, 2.0);
    LowestIndexPrefersLastNewMinimum();
    assert Rotate([a, b, c], 1) == [b, c, a];
    assert !IsPointOnLine(Segment(b, a), c);
    assert !IsPointOnLine(Segment(c, b), a);
    assert [b] + [c] == [b, c] && [b, c] + [a] == [b, c, a];
    assert Simplify([b, c, a], 1, [b]) == Simplify([b, c, a], 2, [b, c]);
    assert Simplify([b, c, a], 2, [b, c]) == Simplify([b, c, a], 3, [b, c, a]);
    assert LowestScan([b, c, a], 1) == Lowest(0, 1.0, 0.0);
    assert LowestScan([b, c, a], 2) == Lowest(0, 1.0, 0.0);
    assert LowestScan([b, c, a], 3) == Lowest(2, 0.0, 0.0);
    assert Rotate([b, c, a], 2) == [a, b, c];
    assert !IsPointOnLine(Segment(a, c), b);
    assert !IsPointOnLine(Segment(b, a), c);
    assert [a] + [b] == [a, b] && [a, b] + [c] == [a, b, c];
    assert Simplify([a, b, c], 1, [a]) == Simplify([a, b, c], 2, [a, b]);
    assert Simplify([a, b, c], 2, [a, b]) == Simplify([a, b, c], 3, [a, b, c]);
  }

  /** A polygon whose bottom side bends up slowly through (1, .0033),
      (2, .0132) and (3, .0297) to (4, .0528). */
  const DriftPolygon: seq<Point> := [Point(0.0, 0.0), Point(1.0, 0.0033), Point(2.0, 0.0132), Point(3.0, 0.0297),
                                     Point(4.0, 0.0528), Point(4.0, 5.0), Point(0.0, 5.0)]

  /** Each of the three bend vertices of `DriftPolygon` is within tolerance
      of the segment from (0, 0) to the vertex after it, so all three are
      dropped, although the last of them is .0099 and the middle one .0132
      off the segment that replaces them. */
  lemma DriftNormalized()
    ensures Normalized(DriftPolygon) == [Point(0.0, 0.0), Point(4.0, 0.0528), Point(4.0, 5.0), Point(0.0, 5.0)]
  {
    DriftStartsAtOrigin();
    assert Rotate(DriftPolygon, 0) == DriftPolygon;
    DriftSimplifyDrops();
    DriftSimplifyKeeps();
  }

  /** The canonical walk of `DriftPolygon` starts at (0, 0). */
  lemma DriftStartsAtOrigin()
    ensures LowestIndex(DriftPolygon) == 0
  {
    var p := DriftPolygon;
    assert LowestScan(p, 1) == Lowest(0, 0.0, 0.0);
    assert LowestScan(p, 2) == Lowest(0, 0.0, 0.0);
    assert LowestScan(p, 3) == Lowest(0, 0.0, 0.0);
    assert LowestScan(p, 4) == Lowest(0, 0.0, 0.0);
    assert LowestScan(p, 5) == Lowest(0, 0.0, 0.0);
    assert LowestScan(p, 6) == Lowest(0, 0.0, 0.0);
    assert LowestScan(p, 7) == Lowest(0, 0.0, 0.0);
  }

  /** The first three passes of the walk drop the bend vertices. */
  lemma DriftSimplifyDrops()
    ensures Simplify(DriftPolygon, 1, [Point(0.0, 0.0)]) == Simplify(DriftPolygon, 4, [Point(0.0, 0.0)])
  {
    DriftDrops();
    var p, o := DriftPolygon, [Point(0.0, 0.0)];
    assert Simplify(p, 1, o) == Simplify(p, 2, o);
    assert Simplify(p, 2, o) == Simplify(p, 3, o);
  }

  /** The last three passes of the walk keep the corners. */
  lemma DriftSimplifyKeeps()
    ensures Simplify(DriftPolygon, 4, [Point(0.0, 0.0)]) ==
      [Point(0.0, 0.0), Point(4.0, 0.0528), Point(4.0, 5.0), Point(0.0, 5.0)]
  {
    DriftKeeps();
    var p := DriftPolygon;
    var o, k, t, l := p[0], p[4], p[5], p[6];
    assert [o] + [k] == [o, k] && [o, k] + [t] == [o, k, t] && [o, k, t] + [l] == [o, k, t, l];
    assert Simplify(p, 4, [o]) == Simplify(p, 5, [o, k]);
    assert Simplify(p, 5, [o, k]) == Simplify(p, 6, [o, k, t]);
    assert Simplify(p, 6, [o, k, t]) == Simplify(p, 7, [o, k, t, l]);
  }

  /** The three bend vertices are each within tolerance of the segment from
      (0, 0) to the vertex after them. */
  lemma DriftDrops()
    ensures IsPointOnLine(Segment(Point(0.0, 0.0), Point(2.0, 0.0132)), Point(1.0, 0.0033))
    ensures IsPointOnLine(Segment(Point(0.0, 0.0), Point(3.0, 0.0297)), Point(2.0, 0.0132))
    ensures IsPointOnLine(Segment(Point(0.0, 0.0), Point(4.0, 0.0528)), Point(3.0, 0.0297))
  {
  }

  /** The corners of `DriftPolygon` are kept. */
  lemma DriftKeeps()
    ensures !IsPointOnLine(Segment(Point(0.0, 0.0), Point(4.0, 5.0)), Point(4.0, 0.0528))
    ensures !IsPointOnLine(Segment(Point(4.0, 0.0528), Point(0.0, 5.0)), Point(4.0, 5.0))
    ensures !IsPointOnLine(Segment(Point(4.0, 5.0), Point(0.0, 0.0)), Point(0.0, 5.0))
  {
  }

  /** Canonicalising `DriftPolygon` moves its boundary by more than the
      tolerance: the dropped vertex (2, .0132) is on the boundary of the
      polygon, but .0132 away from the new bottom side of its canonical
      form. */
  lemma DriftMovesBoundary()
    ensures OnPolygon(Point(2.0, 0.0132), DriftPolygon)
    ensures !OnPolygon(Point(2.0, 0.0132), Normalized(DriftPolygon))
  {
    VertexIsOnPolygon(DriftPolygon, 2);
    DriftNormalized();
    DriftOffCanonical();
  }

  /** The point (2, .0132) is off every edge of the canonical form of
      `DriftPolygon`. */
  lemma DriftOffCanonical()
    ensures !OnPolygon(Point(2.0, 0.0132), [Point(0.0, 0.0), Point(4.0, 0.0528), Point(4.0, 5.0), Point(0.0, 5.0)])
  {
    var q := Point(2.0, 0.0132);
    var c := [Point(0.0, 0.0), Point(4.0, 0.0528), Point(4.0, 5.0), Point(0.0, 5.0)];
    DriftOffEdges();
    forall i | 0 <= i < |c|
      ensures !IsPointOnLine(Segment(c[i], VertexAt(c, i + 1)), q)
    {
      VertexAtWraps(c, i + 1);
    }
  }

  /** The point (2, .0132) is off each of the four sides of the canonical
      form of `DriftPolygon`; it is .0132 above its bottom side. */
  lemma DriftOffEdges()
    ensures !IsPointOnLine(Segment(Point(0.0, 0.0), Point(4.0, 0.0528)), Point(2.0, 0.0132))
    ensures !IsPointOnLine(Segment(Point(4.0, 0.0528), Point(4.0, 5.0)), Point(2.0, 0.0132))
    ensures !IsPointOnLine(Segment(Point(4.0, 5.0), Point(0.0, 5.0)), Point(2.0, 0.0132))
    ensures !IsPointOnLine(Segment(Point(0.0, 5.0), Point(0.0, 0.0)), Point(2.0, 0.0132))
  {
  }

  /** The `forEach` scan of `normolizePolygon`: a new smallest x, and then
      a new smallest y, each move the chosen index to the current vertex. */
  method LowestVertexIndex(polygon: seq<Point>) returns (minIndex: nat)
    requires 0 < |polygon|
    ensures minIndex == LowestIndex(polygon)
  {
    minIndex := 0;
    var minX := polygon[minIndex].x;
    var minY := polygon[minIndex].y;
    for index := 0 to |polygon|
      invariant Lowest(minIndex, minX, minY) == LowestScan(polygon, index)
    {
      var p := polygon[index];
      if p.x < minX {
        minX := p.x;
        minIndex := index;
      }
      if p.y < minY {
        minY := p.y;
        minIndex := index;
      }
    }
  }

  /** `normolizePolygon`: scans all vertices for the starting vertex, then
      walks once around the polygon from it, dropping each vertex that lies
      on the segment from the last kept vertex to the following vertex.
      The source reads `polygon[0]` first, so it needs a vertex. */
  method NormalizePolygon(polygon: seq<Point>) returns (res: seq<Point>)
    requires 0 < |polygon|
    ensures res == Normalized(polygon)
    ensures 0 < |res| <= |polygon|
    ensures res[0] == polygon[LowestIndex(polygon)]
    ensures IsSubsequence(res, Rotate(polygon, LowestIndex(polygon)))
  {
    var minIndex := LowestVertexIndex(polygon);
    ghost var rot := Rotate(polygon, minIndex);
    res := [polygon[minIndex]];
    for number := 1 to |polygon|
      invariant 0 < |res|
      invariant Simplify(rot, number, res) == Normalized(polygon)
    {
      var index := minIndex + number;
      if index >= |polygon| {
        index := index - |polygon|;
      }
      var nextPointIndex := minIndex + number + 1;
      if nextPointIndex >= |polygon| {
        nextPointIndex := nextPointIndex - |polygon|;
      }
      assert polygon[index] == rot[number];
      assert polygon[nextPointIndex] == if number + 1 < |rot| then rot[number + 1] else rot[0];
      if IsPointOnLine(Segment(res[|res| - 1], polygon[nextPointIndex]), polygon[index]) {
        continue;
      }
      res := res + [polygon[index]];
    }
    NormalizedShape(polygon);
  }

  /** The elements of `s` in the opposite order. */
  function Reverse(s: seq<Point>): (r: seq<Point>)
    ensures |r| == |s|
    ensures forall k :: 0 <= k < |s| ==> r[k] == s[|s| - 1 - k]
  {
    if |s| == 0 then [] else Reverse(s[1..]) + [s[0]]
  }

  /** Reversing twice gives the original order back. */
  lemma ReverseInvolution(s: seq<Point>)
    ensures Reverse(Reverse(s)) == s
  {
    assert forall k :: 0 <= k < |s| ==> Reverse(Reverse(s))[k] == s[k];
  }

  /** The result of `polygonToClockwise`: the canonical form, reversed when
      the turn at the first vertex of the polygon as given (from its second
      vertex to its last) is counter-clockwise. */
  function ClockwiseForm(polygon: seq<Point>): seq<Point>
    requires 2 <= |polygon|
  {
    var newPolygon := Normalized(polygon);
    if OrientationOf(polygon[0], polygon[1], polygon[|polygon| - 1]) == CounterClockwise then Reverse(newPolygon)
    else newPolygon
  }

  /** The clockwise form has the vertices of the canonical form, in the same
      or in the opposite order as the winding test decides, and no vertex
      that is not a vertex of the polygon. */
  lemma ClockwiseShape(polygon: seq<Point>)
    requires 2 <= |polygon|
    ensures 0 < |ClockwiseForm(polygon)| <= |polygon|
    ensures OrientationOf(polygon[0], polygon[1], polygon[|polygon| - 1]) == CounterClockwise ==>
      Reverse(ClockwiseForm(polygon)) == Normalized(polygon)
    ensures OrientationOf(polygon[0], polygon[1], polygon[|polygon| - 1]) != CounterClockwise ==>
      ClockwiseForm(polygon) == Normalized(polygon)
    ensures forall k :: 0 <= k < |ClockwiseForm(polygon)| ==> ClockwiseForm(polygon)[k] in polygon
  {
    NormalizedShape(polygon);
    ReverseInvolution(Normalized(polygon));
    var r := ClockwiseForm(polygon);
    forall k | 0 <= k < |r|
      ensures r[k] in polygon
    {
      if OrientationOf(polygon[0], polygon[1], polygon[|polygon| - 1]) == CounterClockwise {
        assert r[k] == Normalized(polygon)[|r| - 1 - k];
      }
    }
  }

  /** `polygonToClockwise`. The source reads the second vertex of the
      polygon, so it needs two. */
  method PolygonToClockwise(polygon: seq<Point>) returns (r: seq<Point>)
    requires 2 <= |polygon|
    ensures r == ClockwiseForm(polygon)
    ensures 0 < |r| <= |polygon|
  {
    var newPolygon := NormalizePolygon(polygon);
    var a := polygon[0];
    var b := polygon[1];
    var c := polygon[|polygon| - 1];
    if OrientationOf(a, b, c) == CounterClockwise {
      return Reverse(newPolygon);
    }
    return newPolygon;
  }

  /** The vertex after vertex `i`, the first one after the last. */
  lemma NextVertex(polygon: seq<Point>, i: nat)
    requires i < |polygon|
    ensures VertexAt(polygon, i + 1) == if i + 1 < |polygon| then polygon[i + 1] else polygon[0]
  {
  }

  /** Edge `i` of a polygon, traversed backwards, is an edge of the reversed
      polygon. */
  lemma ReversedEdge(polygon: seq<Point>, i: nat) returns (j: nat)
    requires i < |polygon|
    ensures j < |polygon|
    ensures Reverse(polygon)[j] == VertexAt(polygon, i + 1)
    ensures VertexAt(Reverse(polygon), j + 1) == polygon[i]
  {
    var n := |polygon|;
    j := if i + 1 < n then n - 2 - i else n - 1;
    NextVertex(polygon, i);
    NextVertex(Reverse(polygon), j);
  }

  /** Edge `i` of a polygon is edge `j` of the polygon rotated to start at
      vertex `m`. */
  lemma RotatedEdge(polygon: seq<Point>, m: nat, i: nat) returns (j: nat)
    requires m <= |polygon| && i < |polygon|
    ensures j < |polygon|
    ensures Rotate(polygon, m)[j] == polygon[i]
    ensures VertexAt(Rotate(polygon, m), j + 1) == VertexAt(polygon, i + 1)
  {
    var n := |polygon|;
    j := if i >= m then i - m else i + n - m;
    NextVertex(polygon, i);
    NextVertex(Rotate(polygon, m), j);
  }

  /** Edge `j` of the polygon rotated to start at vertex `m` is an edge of
      the polygon. */
  lemma EdgeOfRotated(polygon: seq<Point>, m: nat, j: nat) returns (i: nat)
    requires m <= |polygon| && j < |polygon|
    ensures i < |polygon|
    ensures Rotate(polygon, m)[j] == polygon[i]
    ensures VertexAt(Rotate(polygon, m), j + 1) == VertexAt(polygon, i + 1)
  {
    var n := |polygon|;
    i := if m + j < n then m + j else m + j - n;
    NextVertex(polygon, i);
    NextVertex(Rotate(polygon, m), j);
  }

  /** Reversing the vertex order does not move the boundary. */
  lemma OnPolygonReverse(p: Point, polygon: seq<Point>)
    ensures OnPolygon(p, Reverse(polygon)) <==> OnPolygon(p, polygon)
  {
    var n := |polygon|;
    var rev := Reverse(polygon);
    if OnPolygon(p, polygon) {
      var i :| 0 <= i < n && IsPointOnLine(Segment(polygon[i], VertexAt(polygon, i + 1)), p);
      var j := ReversedEdge(polygon, i);
      IsPointOnLineSymmetric(Segment(polygon[i], VertexAt(polygon, i + 1)), p);
      assert IsPointOnLine(Segment(rev[j], VertexAt(rev, j + 1)), p);
    }
    if OnPolygon(p, rev) {
      var j :| 0 <= j < n && IsPointOnLine(Segment(rev[j], VertexAt(rev, j + 1)), p);
      ReverseInvolution(polygon);
      var i := ReversedEdge(rev, j);
      IsPointOnLineSymmetric(Segment(rev[j], VertexAt(rev, j + 1)), p);
      assert IsPointOnLine(Segment(polygon[i], VertexAt(polygon, i + 1)), p);
    }
  }

  /** Starting the walk at another vertex does not move the boundary. */
  lemma OnPolygonRotate(p: Point, polygon: seq<Point>, m: nat)
    requires m <= |polygon|
    ensures OnPolygon(p, Rotate(polygon, m)) <==> OnPolygon(p, polygon)
  {
    var n := |polygon|;
    var rot := Rotate(polygon, m);
    if OnPolygon(p, polygon) {
      var i :| 0 <= i < n && IsPointOnLine(Segment(polygon[i], VertexAt(polygon, i + 1)), p);
      var j := RotatedEdge(polygon, m, i);
      assert IsPointOnLine(Segment(rot[j], VertexAt(rot, j + 1)), p);
    }
    if OnPolygon(p, rot) {
      var j :| 0 <= j < n && IsPointOnLine(Segment(rot[j], VertexAt(rot, j + 1)), p);
      var i := EdgeOfRotated(polygon, m, j);
      assert IsPointOnLine(Segment(polygon[i], VertexAt(polygon, i + 1)), p);
    }
  }

  /** `isLineIntersectsPolygon`: does `line` cross the boundary of the
      clockwise form of the polygon at some edge? The count stops at the
      first crossing. */
  method IsLineIntersectsPolygon(line: Segment, polygon: seq<Point>) returns (r: bool)
    requires 2 <= |polygon|
    ensures r <==> exists i :: 0 <= i < |ClockwiseForm(polygon)| && EdgeCrosses(line, ClockwiseForm(polygon), i)
  {
    var clockwise := PolygonToClockwise(polygon);
    var intersections := CountLineIntersectionsOfPolygon(line, clockwise, 1);
    CrossingCountPositive(line, clockwise);
    return intersections > 0;
  }

  // Polylines

  /** The rule of `isPolylineSelfIntersected` for extending an open polyline
      of at least two points by `newPoint`: the new segment intersects some
      segment other than the last one, or the new point is on the last
      segment, or the start of the last segment is on the new one. */
  predicate SelfIntersects(polyline: seq<Point>, newPoint: Point)
  {
    2 <= |polyline| &&
    var newLine := Segment(polyline[|polyline| - 1], newPoint);
    var lastLine := Segment(polyline[|polyline| - 2], polyline[|polyline| - 1]);
    (exists i :: 0 <= i < |polyline| - 2 && Intersects(newLine, Segment(polyline[i], polyline[i + 1]))) ||
    IsPointOnLine(lastLine, newPoint) || IsPointOnLine(newLine, lastLine.p1)
  }

  /** `isPolylineSelfIntersected`: checks the new segment against every
      segment but the last, stopping at the first intersection, then
      against the last segment. */
  method IsPolylineSelfIntersected(polyline: seq<Point>, newPoint: Point) returns (r: bool)
    ensures r == SelfIntersects(polyline, newPoint)
    ensures |polyline| < 2 ==> !r
  {
    if |polyline| < 2 {
      return false;
    }
    var newLine := Segment(polyline[|polyline| - 1], newPoint);
    for i := 0 to |polyline| - 2
      invariant forall j :: 0 <= j < i ==> !Intersects(newLine, Segment(polyline[j], polyline[j + 1]))
    {
      var line := Segment(polyline[i], polyline[i + 1]);
      if Intersects(newLine, line) {
        return true;
      }
    }
    var lastLine := Segment(polyline[|polyline| - 2], polyline[|polyline| - 1]);
    return IsPointOnLine(lastLine, newPoint) || IsPointOnLine(newLine, lastLine.p1);
  }

  /** Going back along the last segment, to either of its ends, is a
      self-intersection. */
  lemma RetracingIsSelfIntersection(polyline: seq<Point>, newPoint: Point)
    requires 2 <= |polyline|
    requires newPoint == polyline[|polyline| - 2] || newPoint == polyline[|polyline| - 1]
    ensures SelfIntersects(polyline, newPoint)
  {
    assert IsPointOnLine(Segment(polyline[|polyline| - 2], polyline[|polyline| - 1]), newPoint);
  }

  /** Returning to a vertex before the last segment, the first vertex
      included, counts as a self-intersection: the rule does not single out
      closing the polyline into a polygon. */
  lemma ReturningToEarlierVertexIsSelfIntersection(polyline: seq<Point>, newPoint: Point, i: nat)
    requires i < |polyline| - 2
    requires newPoint == polyline[i]
    ensures SelfIntersects(polyline, newPoint)
  {
    assert Intersects(Segment(polyline[|polyline| - 1], newPoint), Segment(polyline[i], polyline[i + 1]));
  }

  /** A new segment that is disjoint from all earlier segments and keeps
      clear of the last one is accepted. */
  lemma ClearExtensionIsAccepted(polyline: seq<Point>, newPoint: Point)
    requires 2 <= |polyline|
    requires forall i :: 0 <= i < |polyline| - 2 ==>
      !Intersects(Segment(polyline[|polyline| - 1], newPoint), Segment(polyline[i], polyline[i + 1]))
    requires !NearSegment(Segment(polyline[|polyline| - 2], polyline[|polyline| - 1]), newPoint)
    requires !NearSegment(Segment(polyline[|polyline| - 1], newPoint), polyline[|polyline| - 2])
    ensures !SelfIntersects(polyline, newPoint)
  {
    IsPointOnLineIff(Segment(polyline[|polyline| - 2], polyline[|polyline| - 1]), newPoint);
    IsPointOnLineIff(Segment(polyline[|polyline| - 1], newPoint), polyline[|polyline| - 2]);
  }
}
