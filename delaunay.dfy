/**
 * Correspondence recovery after Delaunay triangulation: the subdivision
 * reports triangles by vertex coordinates, and the engine maps each vertex
 * back to the indices of the input points lying within a tolerance of less
 * than one pixel on both axes. The subdivision itself is not modelled: its
 * triangle list is an input.
 */
module Delaunay {
  import opened Wrappers
  import opened IndexLists
  import opened Geometry

  /** One row `(x1, y1, x2, y2, x3, y3)` of the subdivision's triangle list. */
  datatype TriangleCoords = TriangleCoords(p1: Vertex, p2: Vertex, p3: Vertex)

  /** A triangle as three indices into the triangulated point list. */
  datatype IndexTriple = IndexTriple(i: nat, j: nat, k: nat)

  function Corners(t: TriangleCoords): seq<Vertex>
  {
    [t.p1, t.p2, t.p3]
  }

  predicate TripleBelow(t: IndexTriple, n: nat)
  {
    t.i < n && t.j < n && t.k < n
  }

  function Abs(r: real): real { if r < 0.0 then -r else r }

  function AsVertex(p: Point): Vertex
  {
    Vertex(p.x as real, p.y as real)
  }

  /**
   * `rect_contains`: the point lies in the rectangle, every one of its four
   * edges included (the far edges at `x + w` and `y + h` too).
   */
  function RectContains(rect: Rect, p: Vertex): (b: bool)
    ensures b <==> rect.x as real <= p.x <= (rect.x + rect.w) as real &&
                   rect.y as real <= p.y <= (rect.y + rect.h) as real
  {
    if p.x < rect.x as real then false
    else if p.y < rect.y as real then false
    else if p.x > (rect.x + rect.w) as real then false
    else if p.y > (rect.y + rect.h) as real then false
    else true
  }

  /**
   * The containment test accepts every point a rectangle's pixel area
   * covers, and also the far edges that the pixel area leaves out: so every
   * point of a list passes the test against the list's bounding rectangle.
   */
  lemma RectContainsBoundingRect(pts: seq<Point>, n: nat)
    requires n < |pts|
    ensures RectContains(BoundingRect(pts), AsVertex(pts[n]))
    ensures var r := BoundingRect(pts);
            RectContains(r, Vertex((r.x + r.w) as real, (r.y + r.h) as real)) &&
            !InArea(r, r.x + r.w, r.y + r.h)
  {
    BoundingRectCovers(pts);
  }

  /** The vertex lies within the tolerance (strictly less than one pixel on both axes) of the point. */
  predicate Near(v: Vertex, p: Point)
  {
    Abs(v.x - p.x as real) < 1.0 && Abs(v.y - p.y as real) < 1.0
  }

  /** The indices of the points within tolerance of `v`, in increasing order. */
  function Matches(v: Vertex, pts: seq<Point>): seq<nat>
    decreases |pts|
  {
    if |pts| == 0 then []
    else
      var n := |pts| - 1;
      Matches(v, pts[..n]) + (if Near(v, pts[n]) then [n] else [])
  }

  /**
   * The matches of a vertex are exactly the valid point indices within
   * tolerance of it, each listed once, in increasing order.
   */
  lemma {:induction false} MatchesSpec(v: Vertex, pts: seq<Point>)
    ensures var ks := Matches(v, pts);
            (forall k :: k in ks <==> 0 <= k < |pts| && Near(v, pts[k])) &&
            (forall a :: 0 <= a < |ks| ==> ks[a] < |pts|) &&
            Increasing(ks)
    decreases |pts|
  {
    if |pts| > 0 {
      var n := |pts| - 1;
      MatchesSpec(v, pts[..n]);
      assert forall k :: 0 <= k < n ==> pts[..n][k] == pts[k];
    }
  }

  /** The `index` list the engine builds: the matches of each vertex in turn. */
  function AllMatches(vs: seq<Vertex>, pts: seq<Point>): (ks: seq<nat>)
    decreases |vs|
  {
    if |vs| == 0 then []
    else AllMatches(vs[..|vs| - 1], pts) + Matches(vs[|vs| - 1], pts)
  }

  predicate AllInside(rect: Rect, t: TriangleCoords)
  {
    RectContains(rect, t.p1) && RectContains(rect, t.p2) && RectContains(rect, t.p3)
  }

  /**
   * What one triangle of the list contributes: nothing unless its three
   * vertices lie in the rectangle and the pooled match list has exactly
   * three entries, which then form the triple.
   */
  function TriangleIndices(rect: Rect, pts: seq<Point>, t: TriangleCoords): Option<IndexTriple>
  {
    if AllInside(rect, t) then
      var index := AllMatches(Corners(t), pts);
      if |index| == 3 then Some(IndexTriple(index[0], index[1], index[2])) else None
    else None
  }

  /** The triples recovered from a triangle list, in list order. */
  function DelaunayTriangles(rect: Rect, pts: seq<Point>, tris: seq<TriangleCoords>): seq<IndexTriple>
    decreases |tris|
  {
    if |tris| == 0 then []
    else
      var n := |tris| - 1;
      DelaunayTriangles(rect, pts, tris[..n]) +
        (match TriangleIndices(rect, pts, tris[n])
         case Some(t) => [t]
         case None => [])
  }

  /** The positions in the triangle list of the triangles that are kept. */
  function KeptSources(rect: Rect, pts: seq<Point>, tris: seq<TriangleCoords>): seq<nat>
    decreases |tris|
  {
    if |tris| == 0 then []
    else
      var n := |tris| - 1;
      KeptSources(rect, pts, tris[..n]) +
        (if TriangleIndices(rect, pts, tris[n]).Some? then [n] else [])
  }

  lemma AllMatchesOfTriangle(t: TriangleCoords, pts: seq<Point>)
    ensures AllMatches(Corners(t), pts) == Matches(t.p1, pts) + Matches(t.p2, pts) + Matches(t.p3, pts)
  {
    var c := Corners(t);
    assert c[..2] == [t.p1, t.p2] && c[..2][..1] == [t.p1] && c[..2][..1][..0] == [];
    assert AllMatches([t.p1], pts) == Matches(t.p1, pts);
    assert AllMatches([t.p1, t.p2], pts) == Matches(t.p1, pts) + Matches(t.p2, pts);
  }

  /**
   * A listed triangle is kept exactly when all three vertices lie in the
   * rectangle and the number of (vertex, point) matches, counted over all
   * three vertices together, is three; every index of a kept triple is a
   * valid point index.
   */
  lemma TriangleKeptIff(rect: Rect, pts: seq<Point>, t: TriangleCoords)
    ensures TriangleIndices(rect, pts, t).Some? <==>
              AllInside(rect, t) &&
              |Matches(t.p1, pts)| + |Matches(t.p2, pts)| + |Matches(t.p3, pts)| == 3
    ensures TriangleIndices(rect, pts, t).Some? ==> TripleBelow(TriangleIndices(rect, pts, t).value, |pts|)
  {
    AllMatchesOfTriangle(t, pts);
    MatchesSpec(t.p1, pts);
    MatchesSpec(t.p2, pts);
    MatchesSpec(t.p3, pts);
    var index := AllMatches(Corners(t), pts);
    if AllInside(rect, t) && |index| == 3 {
      assert forall a :: 0 <= a < 3 ==> index[a] < |pts|;
    }
  }

  /**
   * When each vertex is within tolerance of exactly one point, the triangle
   * is kept and its triple names those three points, vertex by vertex.
   */
  lemma OneMatchPerVertex(rect: Rect, pts: seq<Point>, t: TriangleCoords)
    requires AllInside(rect, t)
    requires |Matches(t.p1, pts)| == 1 && |Matches(t.p2, pts)| == 1 && |Matches(t.p3, pts)| == 1
    ensures TriangleIndices(rect, pts, t).Some?
    ensures var r := TriangleIndices(rect, pts, t).value;
            TripleBelow(r, |pts|) &&
            Near(t.p1, pts[r.i]) && Near(t.p2, pts[r.j]) && Near(t.p3, pts[r.k])
  {
    AllMatchesOfTriangle(t, pts);
    MatchesSpec(t.p1, pts);
    MatchesSpec(t.p2, pts);
    MatchesSpec(t.p3, pts);
    var m1, m2, m3 := Matches(t.p1, pts), Matches(t.p2, pts), Matches(t.p3, pts);
    assert m1[0] in m1 && m2[0] in m2 && m3[0] in m3;
  }

  /**
   * A vertex within tolerance of two or more points drops the triangle
   * when every vertex has at least one match.
   */
  lemma AmbiguousVertexDrops(rect: Rect, pts: seq<Point>, t: TriangleCoords)
    requires |Matches(t.p1, pts)| >= 1 && |Matches(t.p2, pts)| >= 1 && |Matches(t.p3, pts)| >= 1
    requires |Matches(t.p1, pts)| >= 2 || |Matches(t.p2, pts)| >= 2 || |Matches(t.p3, pts)| >= 2
    ensures TriangleIndices(rect, pts, t).None?
  {
    TriangleKeptIff(rect, pts, t);
  }

  /**
   * The count is pooled over the three vertices: a vertex matching two
   * points and a vertex matching none still give three matches, so the
   * triangle is kept, and its triple takes both matches of the first vertex.
   */
  lemma MatchCountIsPooled(rect: Rect, pts: seq<Point>, t: TriangleCoords)
    requires AllInside(rect, t)
    requires |Matches(t.p1, pts)| == 2 && |Matches(t.p2, pts)| == 1 && |Matches(t.p3, pts)| == 0
    ensures TriangleIndices(rect, pts, t) ==
              Some(IndexTriple(Matches(t.p1, pts)[0], Matches(t.p1, pts)[1], Matches(t.p2, pts)[0]))
  {
    AllMatchesOfTriangle(t, pts);
  }

  /** Every recovered triple holds valid indices into the point list. */
  lemma {:induction false} DelaunayIndicesInRange(rect: Rect, pts: seq<Point>, tris: seq<TriangleCoords>)
    ensures forall m :: 0 <= m < |DelaunayTriangles(rect, pts, tris)| ==>
              TripleBelow(DelaunayTriangles(rect, pts, tris)[m], |pts|)
    decreases |tris|
  {
    if |tris| > 0 {
      var n := |tris| - 1;
      DelaunayIndicesInRange(rect, pts, tris[..n]);
      TriangleKeptIff(rect, pts, tris[n]);
    }
  }

  /** The kept positions and the recovered triples correspond one to one. */
  lemma {:induction false} KeptSourcesMatch(rect: Rect, pts: seq<Point>, tris: seq<TriangleCoords>)
    ensures var out, src := DelaunayTriangles(rect, pts, tris), KeptSources(rect, pts, tris);
            |src| == |out| &&
            forall m :: 0 <= m < |src| ==>
              src[m] < |tris| && TriangleIndices(rect, pts, tris[src[m]]) == Some(out[m])
    decreases |tris|
  {
    if |tris| > 0 {
      var n := |tris| - 1;
      KeptSourcesMatch(rect, pts, tris[..n]);
      assert forall q :: 0 <= q < n ==> tris[..n][q] == tris[q];
    }
  }

  /** The kept positions increase, and every triangle not kept yields nothing. */
  lemma {:induction false} KeptSourcesOrder(rect: Rect, pts: seq<Point>, tris: seq<TriangleCoords>)
    ensures var src := KeptSources(rect, pts, tris);
            Increasing(src) && (forall m :: 0 <= m < |src| ==> src[m] < |tris|) &&
            forall n :: 0 <= n < |tris| && n !in src ==> TriangleIndices(rect, pts, tris[n]).None?
    decreases |tris|
  {
    if |tris| > 0 {
      var n := |tris| - 1;
      var pre := tris[..n];
      KeptSourcesOrder(rect, pts, pre);
      var prev := KeptSources(rect, pts, pre);
      var kept := TriangleIndices(rect, pts, tris[n]).Some?;
      var src := prev + (if kept then [n] else []);
      assert KeptSources(rect, pts, tris) == src;
      assert forall m :: 0 <= m < |prev| ==> prev[m] < n;
      forall k | 0 <= k < |tris| && k !in src
        ensures TriangleIndices(rect, pts, tris[k]).None?
      {
        if k < n {
          assert k !in prev && pre[k] == tris[k];
        }
      }
    }
  }

  /**
   * Each listed triangle contributes at most one triple, in list order: the
   * m-th triple comes from the triangle at the m-th kept position, the kept
   * positions increase, and every other triangle yields nothing.
   */
  lemma DelaunayOrigin(rect: Rect, pts: seq<Point>, tris: seq<TriangleCoords>)
    ensures var out, src := DelaunayTriangles(rect, pts, tris), KeptSources(rect, pts, tris);
            |src| == |out| && |out| <= |tris| && Increasing(src) &&
            (forall m :: 0 <= m < |src| ==>
               src[m] < |tris| && TriangleIndices(rect, pts, tris[src[m]]) == Some(out[m])) &&
            (forall n :: 0 <= n < |tris| && n !in src ==> TriangleIndices(rect, pts, tris[n]).None?)
  {
    KeptSourcesMatch(rect, pts, tris);
    KeptSourcesOrder(rect, pts, tris);
    IncreasingBounded(KeptSources(rect, pts, tris), |tris|);
  }

  /**
   * The two inner loops of `calculate_delaunay_triangles`: for each vertex
   * in turn, append the index of every point within tolerance of it.
   */
  method CollectMatches(point: seq<Vertex>, points: seq<Point>) returns (index: seq<nat>)
    ensures index == AllMatches(point, points)
  {
    index := [];
    for j := 0 to |point|
      invariant index == AllMatches(point[..j], points)
    {
      ghost var before := index;
      for k := 0 to |points|
        invariant index == before + Matches(point[j], points[..k])
      {
        if Abs(point[j].x - points[k].x as real) < 1.0 && Abs(point[j].y - points[k].y as real) < 1.0 {
          index := index + [k];
        }
        assert points[..k + 1][..k] == points[..k];
      }
      assert points[..|points|] == points;
      assert point[..j + 1][..j] == point[..j];
    }
    assert point[..|point|] == point;
  }

  /**
   * `calculate_delaunay_triangles` after the subdivision has produced
   * `triangleList`: the loop over triangles, collecting the matched indices
   * of each triangle inside the rectangle and emitting a triple when exactly
   * three were found.
   */
  method CalculateDelaunayTriangles(rect: Rect, points: seq<Point>, triangleList: seq<TriangleCoords>)
    returns (delaunayTri: seq<IndexTriple>)
    ensures delaunayTri == DelaunayTriangles(rect, points, triangleList)
    ensures forall m :: 0 <= m < |delaunayTri| ==> TripleBelow(delaunayTri[m], |points|)
  {
    delaunayTri := [];
    var n := 0;
    while n < |triangleList|
      invariant 0 <= n <= |triangleList|
      invariant delaunayTri == DelaunayTriangles(rect, points, triangleList[..n])
    {
      var t := triangleList[n];
      var point := [t.p1, t.p2, t.p3];
      assert point == Corners(t);
      if RectContains(rect, point[0]) && RectContains(rect, point[1]) && RectContains(rect, point[2]) {
        var index := CollectMatches(point, points);
        if |index| == 3 {
          delaunayTri := delaunayTri + [IndexTriple(index[0], index[1], index[2])];
        }
      }
      assert triangleList[..n + 1][..n] == triangleList[..n];
      n := n + 1;
    }
    assert triangleList[..n] == triangleList;
    DelaunayIndicesInRange(rect, points, triangleList);
  }
}
