/** Result and Option wrappers for the error paths of the pipeline. */
module Wrappers {
  datatype Option<+T> = None | Some(value: T)

  datatype Result<+R, +E> = Success(value: R) | Failure(error: E)
}

/** Index lists: integer ranges and strictly increasing lists. */
module IndexLists {

  /** The indices `lo, lo + 1, ..., hi - 1`. */
  function Range(lo: nat, hi: nat): seq<nat>
    requires lo <= hi
  {
    seq(hi - lo, j => lo + j)
  }

  predicate Increasing(s: seq<nat>)
  {
    forall a, b :: 0 <= a < b < |s| ==> s[a] < s[b]
  }

  /** A strictly increasing list of indices below `n` has at most `n` entries. */
  lemma {:induction false} IncreasingBounded(s: seq<nat>, n: nat)
    requires Increasing(s)
    requires forall m :: 0 <= m < |s| ==> s[m] < n
    ensures |s| <= n
    decreases |s|
  {
    if |s| > 0 {
      var last := |s| - 1;
      assert forall m :: 0 <= m < last ==> s[m] < s[last];
      IncreasingBounded(s[..last], s[last]);
    }
  }

  /** Every index from `lo` up to `hi` is in the range and nothing else is. */
  lemma RangeMembers(lo: nat, hi: nat)
    requires lo <= hi
    ensures forall k :: k in Range(lo, hi) <==> lo <= k < hi
  {
    forall k | lo <= k < hi ensures k in Range(lo, hi) {
      assert Range(lo, hi)[k - lo] == k;
    }
  }
}

/**
 * The plane geometry shared by the face-swap engine: integer landmark
 * points, the floating-point vertices the Delaunay subdivision reports,
 * OpenCV rectangles `(x, y, width, height)` and their bounding-box rule.
 */
module Geometry {

  /** A landmark in integer pixel coordinates. */
  datatype Point = Point(x: int, y: int)

  /** A vertex reported by the triangulator (its coordinates are floats). */
  datatype Vertex = Vertex(x: real, y: real)

  /** An OpenCV rectangle: top-left corner, width and height. */
  datatype Rect = Rect(x: int, y: int, w: int, h: int)

  /** Three points, in the order the triangle lists them. */
  datatype Triangle = Triangle(a: Point, b: Point, c: Point)

  /** Smallest and largest coordinates of a non-empty point list. */
  datatype Extent = Extent(minX: int, minY: int, maxX: int, maxY: int)

  function Vertices(t: Triangle): seq<Point>
  {
    [t.a, t.b, t.c]
  }

  function Min(a: int, b: int): int { if a <= b then a else b }

  function Max(a: int, b: int): int { if a <= b then b else a }

  /** The extent of a point list: every point lies within it, and each bound is attained. */
  function ExtentOf(pts: seq<Point>): (e: Extent)
    requires |pts| > 0
    ensures forall i :: 0 <= i < |pts| ==>
              e.minX <= pts[i].x <= e.maxX && e.minY <= pts[i].y <= e.maxY
    ensures exists i :: 0 <= i < |pts| && pts[i].x == e.minX
    ensures exists i :: 0 <= i < |pts| && pts[i].x == e.maxX
    ensures exists i :: 0 <= i < |pts| && pts[i].y == e.minY
    ensures exists i :: 0 <= i < |pts| && pts[i].y == e.maxY
  {
    if |pts| == 1 then
      Extent(pts[0].x, pts[0].y, pts[0].x, pts[0].y)
    else
      var e := ExtentOf(pts[1..]);
      Extent(Min(pts[0].x, e.minX), Min(pts[0].y, e.minY),
             Max(pts[0].x, e.maxX), Max(pts[0].y, e.maxY))
  }

  /**
   * `cv2.boundingRect` of integer points: the right and bottom sides are
   * exclusive, so the width is `max - min + 1`; no points give the empty
   * rectangle `(0, 0, 0, 0)`.
   */
  function BoundingRect(pts: seq<Point>): (r: Rect)
    ensures |pts| > 0 <==> r.w >= 1 && r.h >= 1
  {
    if |pts| == 0 then Rect(0, 0, 0, 0)
    else
      var e := ExtentOf(pts);
      Rect(e.minX, e.minY, e.maxX - e.minX + 1, e.maxY - e.minY + 1)
  }

  /** The pixel `(x, y)` lies in the half-open pixel area of `r`. */
  predicate InArea(r: Rect, x: int, y: int)
  {
    r.x <= x < r.x + r.w && r.y <= y < r.y + r.h
  }

  /**
   * The bounding rectangle of a non-empty point list covers every point,
   * has positive size, and is the smallest such rectangle: each of its four
   * sides touches a point.
   */
  lemma BoundingRectCovers(pts: seq<Point>)
    requires |pts| > 0
    ensures BoundingRect(pts).w >= 1 && BoundingRect(pts).h >= 1
    ensures forall i :: 0 <= i < |pts| ==> InArea(BoundingRect(pts), pts[i].x, pts[i].y)
    ensures exists i :: 0 <= i < |pts| && pts[i].x == BoundingRect(pts).x
    ensures exists i :: 0 <= i < |pts| && pts[i].y == BoundingRect(pts).y
    ensures exists i :: 0 <= i < |pts| && pts[i].x == BoundingRect(pts).x + BoundingRect(pts).w - 1
    ensures exists i :: 0 <= i < |pts| && pts[i].y == BoundingRect(pts).y + BoundingRect(pts).h - 1
  {
    var e := ExtentOf(pts);
    assert BoundingRect(pts) == Rect(e.minX, e.minY, e.maxX - e.minX + 1, e.maxY - e.minY + 1);
  }

  /** A sub-list's bounding rectangle lies inside the list's bounding rectangle. */
  lemma BoundingRectMonotone(sub: seq<Point>, pts: seq<Point>)
    requires |sub| > 0
    requires forall p :: p in sub ==> p in pts
    ensures |pts| > 0
    ensures var r, s := BoundingRect(pts), BoundingRect(sub);
            r.x <= s.x && r.y <= s.y && s.x + s.w <= r.x + r.w && s.y + s.h <= r.y + r.h
  {
    assert sub[0] in pts;
    var e, f := ExtentOf(pts), ExtentOf(sub);
    forall i | 0 <= i < |sub|
      ensures e.minX <= sub[i].x <= e.maxX && e.minY <= sub[i].y <= e.maxY
    {
      assert sub[i] in pts;
      var j :| 0 <= j < |pts| && pts[j] == sub[i];
    }
  }
}
