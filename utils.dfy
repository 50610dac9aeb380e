/** The small, pure helpers of `utils.ts` that the geometry code and the
    rest of the application build on: points and sizes, half-open rectangle
    tests, exact point equality, the bounding box of a point list,
    distinct-by-key selection and lower-casing of a first letter. */
module Utils {
  import opened Wrappers
  import opened CharCase

  /** A point of the drawing surface. Coordinates are exact reals. */
  datatype Point = Point(x: real, y: real)

  /** The extent of a rectangle anchored at its top-left point. */
  datatype Size = Size(width: real, height: real)

  /** The result of `getMinMaxPos`: the corners of the bounding box. */
  datatype Bounds = Bounds(min: Point, max: Point)

  /** `includesPoint`: is `pos` inside the half-open box
      [from.x, from.x + width) x [from.y, from.y + height)? */
  function IncludesPoint(pos: Point, from: Point, size: Size): (r: bool)
    ensures r ==> size.width > 0.0 && size.height > 0.0
    ensures r <==> from.x <= pos.x < from.x + size.width && from.y <= pos.y < from.y + size.height
  {
    (pos.x >= from.x && pos.x < from.x + size.width) &&
    (pos.y >= from.y && pos.y < from.y + size.height)
  }

  /** A box includes its own anchor exactly when it has positive size, and
      never includes its far corner nor any point of its right or bottom side. */
  lemma IncludesPointHalfOpen(from: Point, size: Size, t: real)
    ensures IncludesPoint(from, from, size) <==> size.width > 0.0 && size.height > 0.0
    ensures !IncludesPoint(Point(from.x + size.width, t), from, size)
    ensures !IncludesPoint(Point(t, from.y + size.height), from, size)
  {
  }

  /** `intersects` (rectangles): do the interiors of the two boxes overlap? */
  function Intersects(p1: Point, size1: Size, p2: Point, size2: Size): (r: bool)
    ensures r ==> size1.width + size2.width > 0.0
    ensures r ==> size1.height + size2.height > 0.0
  {
    p1.x < p2.x + size2.width &&
    p1.x + size1.width > p2.x &&
    p1.y < p2.y + size2.height &&
    p1.y + size1.height > p2.y
  }

  /** Rectangle overlap does not depend on the order of the two rectangles. */
  lemma IntersectsSymmetric(p1: Point, size1: Size, p2: Point, size2: Size)
    ensures Intersects(p1, size1, p2, size2) == Intersects(p2, size2, p1, size1)
  {
  }

  /** A box of positive size placed at a point that another box includes
      overlaps that other box; and a box of positive size overlaps itself. */
  lemma IncludedPointIntersects(pos: Point, size: Size, from: Point, boxSize: Size)
    requires IncludesPoint(pos, from, boxSize)
    requires size.width > 0.0 && size.height > 0.0
    ensures Intersects(pos, size, from, boxSize)
    ensures Intersects(from, boxSize, from, boxSize)
  {
  }

  /** `arePointsEquals`: exact equality of both coordinates. */
  function ArePointsEquals(p1: Point, p2: Point): (r: bool)
    ensures r <==> p1 == p2
  {
    p1.x == p2.x && p1.y == p2.y
  }

  /** Point equality is reflexive, symmetric and transitive. */
  lemma ArePointsEqualsIsEquivalence(p: Point, q: Point, s: Point)
    ensures ArePointsEquals(p, p)
    ensures ArePointsEquals(p, q) == ArePointsEquals(q, p)
    ensures ArePointsEquals(p, q) && ArePointsEquals(q, s) ==> ArePointsEquals(p, s)
  {
  }

  /** `getMinMaxPos`: the bounding box of `points`, or null for an empty list.
      Each bound is attained by some point, and every point lies within the bounds.
      The source copies the first point into fresh `min` and `max` records and
      updates those; here they are local values, so `points` cannot change. */
  method GetMinMaxPos(points: seq<Point>) returns (r: Option<Bounds>)
    ensures r.None? <==> points == []
    ensures r.Some? ==> forall i :: 0 <= i < |points| ==>
      r.value.min.x <= points[i].x <= r.value.max.x && r.value.min.y <= points[i].y <= r.value.max.y
    ensures r.Some? ==> exists i :: 0 <= i < |points| && points[i].x == r.value.min.x
    ensures r.Some? ==> exists i :: 0 <= i < |points| && points[i].y == r.value.min.y
    ensures r.Some? ==> exists i :: 0 <= i < |points| && points[i].x == r.value.max.x
    ensures r.Some? ==> exists i :: 0 <= i < |points| && points[i].y == r.value.max.y
  {
    if |points| == 0 {
      return None;
    }
    var min := Point(points[0].x, points[0].y);
    var max := Point(points[0].x, points[0].y);
    ghost var iMinX, iMinY, iMaxX, iMaxY := 0, 0, 0, 0;
    for i := 0 to |points|
      invariant forall j :: 0 <= j < i ==>
        min.x <= points[j].x <= max.x && min.y <= points[j].y <= max.y
      invariant iMinX < |points| && points[iMinX].x == min.x
      invariant iMinY < |points| && points[iMinY].y == min.y
      invariant iMaxX < |points| && points[iMaxX].x == max.x
      invariant iMaxY < |points| && points[iMaxY].y == max.y
    {
      var p := points[i];
      if p.x < min.x { min := min.(x := p.x); iMinX := i; }
      if p.y < min.y { min := min.(y := p.y); iMinY := i; }
      if p.x > max.x { max := max.(x := p.x); iMaxX := i; }
      if p.y > max.y { max := max.(y := p.y); iMaxY := i; }
    }
    return Some(Bounds(min, max));
  }

  /** Item `i` is the first of `items` whose key is `idOf(items[i])`. */
  predicate IsFirstOccurrence<T, Id(==)>(items: seq<T>, idOf: T -> Id, i: nat)
    requires i < |items|
  {
    forall j :: 0 <= j < i ==> idOf(items[j]) != idOf(items[i])
  }

  /** The positions, in increasing order, of the items whose key has not
      occurred before them. */
  function FirstOccurrences<T, Id(==)>(items: seq<T>, idOf: T -> Id): (r: seq<nat>)
    ensures |r| <= |items|
    ensures forall k :: 0 <= k < |r| ==> r[k] < |items| && IsFirstOccurrence(items, idOf, r[k])
    ensures forall k, l :: 0 <= k < l < |r| ==> r[k] < r[l]
    ensures forall i :: 0 <= i < |items| && IsFirstOccurrence(items, idOf, i) ==> i in r
  {
    if items == [] then []
    else
      var last := |items| - 1;
      var init := items[..last];
      assert forall i :: 0 <= i < last ==> (IsFirstOccurrence(init, idOf, i) <==> IsFirstOccurrence(items, idOf, i));
      FirstOccurrences(init, idOf) + (if IsFirstOccurrence(items, idOf, last) then [last] else [])
  }

  /** The first occurrences carry pairwise distinct keys, and every key of
      `items` is the key of one of them. */
  lemma FirstOccurrencesAreDistinctKeys<T, Id>(items: seq<T>, idOf: T -> Id)
    ensures var firsts := FirstOccurrences(items, idOf);
      forall k, l :: 0 <= k < l < |firsts| ==> idOf(items[firsts[k]]) != idOf(items[firsts[l]])
    ensures var firsts := FirstOccurrences(items, idOf);
      forall i :: 0 <= i < |items| ==> exists k :: 0 <= k < |firsts| && idOf(items[firsts[k]]) == idOf(items[i])
  {
    var firsts := FirstOccurrences(items, idOf);
    forall i | 0 <= i < |items|
      ensures exists k :: 0 <= k < |firsts| && idOf(items[firsts[k]]) == idOf(items[i])
    {
      var j := FirstWithKey(items, idOf, i);
      assert j in firsts;
      var k :| 0 <= k < |firsts| && firsts[k] == j;
    }
  }

  /** The position of the first item that shares its key with item `i`. */
  ghost function FirstWithKey<T, Id>(items: seq<T>, idOf: T -> Id, i: nat): (j: nat)
    requires i < |items|
    ensures j <= i && idOf(items[j]) == idOf(items[i]) && IsFirstOccurrence(items, idOf, j)
    decreases i
  {
    if IsFirstOccurrence(items, idOf, i) then i
    else
      var j :| 0 <= j < i && idOf(items[j]) == idOf(items[i]);
      FirstWithKey(items, idOf, j)
  }

  /** The keys of `items`. */
  function KeysOf<T, Id>(items: seq<T>, idOf: T -> Id): set<Id>
  {
    if items == [] then {} else KeysOf(items[..|items| - 1], idOf) + {idOf(items[|items| - 1])}
  }

  /** A key is among the keys of `items` exactly when some item has it. */
  lemma {:induction false} KeysOfMembers<T, Id>(items: seq<T>, idOf: T -> Id, id: Id)
    ensures id in KeysOf(items, idOf) <==> exists j :: 0 <= j < |items| && idOf(items[j]) == id
  {
    if items != [] {
      var init := items[..|items| - 1];
      KeysOfMembers(init, idOf, id);
      if exists j :: 0 <= j < |init| && idOf(init[j]) == id {
        var j :| 0 <= j < |init| && idOf(init[j]) == id;
        assert idOf(items[j]) == id;
      }
      if exists j :: 0 <= j < |items| && idOf(items[j]) == id {
        var j :| 0 <= j < |items| && idOf(items[j]) == id;
        if j < |init| {
          assert idOf(init[j]) == id;
        }
      }
    }
  }

  /** Reading one more item adds its key to the keys seen, and extends the
      first occurrences by its position exactly when that key has not been
      seen before. */
  lemma FirstOccurrencesStep<T, Id>(items: seq<T>, idOf: T -> Id, i: nat)
    requires i < |items|
    ensures KeysOf(items[..i + 1], idOf) == KeysOf(items[..i], idOf) + {idOf(items[i])}
    ensures FirstOccurrences(items[..i + 1], idOf) ==
      FirstOccurrences(items[..i], idOf) + (if idOf(items[i]) in KeysOf(items[..i], idOf) then [] else [i])
  {
    var prefix := items[..i + 1];
    assert prefix[..i] == items[..i];
    KeysOfMembers(items[..i], idOf, idOf(items[i]));
    assert IsFirstOccurrence(prefix, idOf, i) <==> idOf(items[i]) !in KeysOf(items[..i], idOf) by {
      if !IsFirstOccurrence(prefix, idOf, i) {
        var j :| 0 <= j < i && idOf(prefix[j]) == idOf(prefix[i]);
        assert idOf(items[..i][j]) == idOf(items[i]);
      }
    }
  }

  /** `selectDistinct`: one result per distinct key, in order of first
      occurrence, each made by `resultOf` from the first item with that key. */
  method SelectDistinct<T, R, Id(==)>(items: seq<T>, idOf: T -> Id, resultOf: T -> R) returns (result: seq<R>)
    ensures |result| <= |items|
    ensures |result| == |FirstOccurrences(items, idOf)|
    ensures forall k :: 0 <= k < |result| ==> result[k] == resultOf(items[FirstOccurrences(items, idOf)[k]])
  {
    result := [];
    var seen: set<Id> := {};
    ghost var firsts: seq<nat> := [];
    for i := 0 to |items|
      invariant seen == KeysOf(items[..i], idOf)
      invariant firsts == FirstOccurrences(items[..i], idOf)
      invariant |result| == |firsts|
      invariant forall k :: 0 <= k < |result| ==> result[k] == resultOf(items[firsts[k]])
    {
      var id := idOf(items[i]);
      FirstOccurrencesStep(items, idOf, i);
      if id in seen {
        continue;
      }
      seen := seen + {id};
      result := result + [resultOf(items[i])];
      firsts := firsts + [i];
    }
    assert items[..|items|] == items;
  }

  /** `lowerFirstLetter`: a null or empty string is returned as it is;
      otherwise the first character is lower-cased and the rest kept. */
  function LowerFirstLetter(str: Option<string>): (r: Option<string>)
    ensures str.None? || str == Some([]) ==> r == str
    ensures str.Some? ==> r.Some? && |r.value| == |str.value|
    ensures str.Some? && |str.value| > 0 ==>
      r.value[0] == ToLowerChar(str.value[0]) && r.value[1..] == str.value[1..]
    ensures str.Some? && |str.value| > 0 && IsAsciiUpper(str.value[0]) ==> IsAsciiLower(r.value[0])
  {
    match str
    case None => str
    case Some(s) =>
      if |s| == 0 then str
      else Some([ToLowerChar(s[0])] + s[1..])
  }

  /** Lower-casing the first letter twice is the same as doing it once. */
  lemma LowerFirstLetterIdempotent(str: Option<string>)
    ensures LowerFirstLetter(LowerFirstLetter(str)) == LowerFirstLetter(str)
  {
    if str.Some? && |str.value| > 0 {
      LowerCaseIdempotent(str.value[0]);
    }
  }
}
