/**
 * The face-swap pipeline for one pair of frames: filter both 68-point
 * landmark sets, take the destination's convex hull indices to pick
 * corresponding hull points from both sets, triangulate the destination
 * hull, warp every triangle of the source face onto a copy of the
 * destination frame, and hand the result, the hull polygon and the blend
 * centre to seamless cloning.
 */
module FaceSwap {
  import opened Wrappers
  import opened IndexLists
  import opened Geometry
  import opened LandmarkFilter
  import opened Delaunay
  import opened TriangleWarp

  /** `cv2.Subdiv2D(rect)` with the points inserted, then `getTriangleList()`. */
  type Triangulator = (Rect, seq<Point>) -> seq<TriangleCoords>

  /**
   * How `face_swap` ends: a landmark set of the wrong size is rejected, an
   * empty triangulation quits the run, and otherwise the warped frame goes
   * to seamless cloning with the hull polygon as mask and this centre.
   */
  datatype SwapEnd = InvalidLandmarks(message: string) | Quit | Clone(center: Point, hull: seq<Point>)

  /** The points at the listed indices, in list order. */
  function Select(points: seq<Point>, idx: seq<nat>): seq<Point>
    requires forall i :: 0 <= i < |idx| ==> idx[i] < |points|
  {
    seq(|idx|, i requires 0 <= i < |idx| => points[idx[i]])
  }

  /**
   * The hull loop of `face_swap`: one index list, taken from the destination
   * points, picks the points of both landmark sets, so `hull1[i]` and
   * `hull2[i]` are the same landmark of the two faces.
   */
  method GatherHull(points1: seq<Point>, points2: seq<Point>, hullIndex: seq<nat>)
    returns (hull1: seq<Point>, hull2: seq<Point>)
    requires forall i :: 0 <= i < |hullIndex| ==> hullIndex[i] < |points1| && hullIndex[i] < |points2|
    ensures |hull1| == |hullIndex| && |hull2| == |hullIndex|
    ensures forall i :: 0 <= i < |hullIndex| ==>
              hull1[i] == points1[hullIndex[i]] && hull2[i] == points2[hullIndex[i]]
    ensures hull1 == Select(points1, hullIndex) && hull2 == Select(points2, hullIndex)
    ensures points1 == points2 ==> hull1 == hull2
  {
    hull1, hull2 := [], [];
    var i := 0;
    while i < |hullIndex|
      invariant 0 <= i <= |hullIndex|
      invariant |hull1| == i && |hull2| == i
      invariant forall m :: 0 <= m < i ==> hull1[m] == points1[hullIndex[m]] && hull2[m] == points2[hullIndex[m]]
    {
      hull1 := hull1 + [points1[hullIndex[i]]];
      hull2 := hull2 + [points2[hullIndex[i]]];
      i := i + 1;
    }
  }

  /** The triangle whose corners are the hull points named by a recovered triple. */
  function TriangleOf(hull: seq<Point>, t: IndexTriple): Triangle
    requires TripleBelow(t, |hull|)
  {
    Triangle(hull[t.i], hull[t.j], hull[t.k])
  }

  /** Python's `int(n / 2)`: half of `n`, truncated toward zero. */
  function TruncHalf(n: int): (h: int)
    ensures 0 <= n ==> 0 <= 2 * h <= n <= 2 * h + 1
    ensures n < 0 ==> 2 * h - 1 <= n <= 2 * h <= 0
  {
    if n >= 0 then n / 2 else -((-n) / 2)
  }

  /** The seamless-cloning centre: the integer centre of rectangle `r`. */
  function BlendCentre(r: Rect): (c: Point)
    ensures r.w >= 0 && r.h >= 0 ==> r.x <= c.x <= r.x + r.w && r.y <= c.y <= r.y + r.h
  {
    Point(r.x + TruncHalf(r.w), r.y + TruncHalf(r.h))
  }

  /**
   * The centre of a rectangle of positive size is one of its pixels: the
   * middle one, or the right (lower) of the two middle ones when the size
   * is even.
   */
  lemma BlendCentreInside(r: Rect)
    requires r.w >= 1 && r.h >= 1
    ensures var c := BlendCentre(r);
            InArea(r, c.x, c.y) &&
            0 <= (c.x - r.x) - (r.x + r.w - 1 - c.x) <= 1 &&
            0 <= (c.y - r.y) - (r.y + r.h - 1 - c.y) <= 1
  {
  }

  /** Every point lies in a frame of `rows` by `cols` samples. */
  predicate AllInFrame(pts: seq<Point>, rows: nat, cols: nat)
  {
    forall i :: 0 <= i < |pts| ==> 0 <= pts[i].x < cols && 0 <= pts[i].y < rows
  }

  /** A triangle whose corners lie in the frame has its bounding rectangle in the frame. */
  lemma TriangleRectInFrame(t: Triangle, rows: nat, cols: nat)
    requires AllInFrame(Vertices(t), rows, cols)
    ensures RectInFrame(TriangleRect(t), rows, cols)
  {
    BoundingRectCovers(Vertices(t));
  }

  predicate TriplesBelow(dt: seq<IndexTriple>, n: nat)
  {
    forall m :: 0 <= m < |dt| ==> TripleBelow(dt[m], n)
  }

  /** The frame after the triangle loop has warped the triangles of `dt`, in order. */
  function WarpAll(img: Image, hull1: seq<Point>, hull2: seq<Point>, dt: seq<IndexTriple>,
                   resample: Resampler, fill: MaskFill): (out: Image)
    requires TriplesBelow(dt, |hull1|) && TriplesBelow(dt, |hull2|)
    ensures |out| == |img| && forall y :: 0 <= y < |img| ==> |out[y]| == |img[y]|
    decreases |dt|
  {
    if |dt| == 0 then img
    else
      var n := |dt| - 1;
      WarpImage(WarpAll(img, hull1, hull2, dt[..n], resample, fill),
                TriangleOf(hull1, dt[n]), TriangleOf(hull2, dt[n]), resample, fill)
  }

  /**
   * A sample outside the bounding rectangle of every destination triangle
   * keeps its value through the triangle loop.
   */
  lemma {:induction false} WarpAllOutside(img: Image, hull1: seq<Point>, hull2: seq<Point>, dt: seq<IndexTriple>,
                                          resample: Resampler, fill: MaskFill, y: int, x: int)
    requires TriplesBelow(dt, |hull1|) && TriplesBelow(dt, |hull2|)
    requires 0 <= y < |img| && 0 <= x < |img[y]|
    requires forall m :: 0 <= m < |dt| ==> !InArea(TriangleRect(TriangleOf(hull2, dt[m])), x, y)
    ensures WarpAll(img, hull1, hull2, dt, resample, fill)[y][x] == img[y][x]
    decreases |dt|
  {
    if |dt| > 0 {
      var n := |dt| - 1;
      var pre := dt[..n];
      assert forall m :: 0 <= m < n ==> pre[m] == dt[m];
      WarpAllOutside(img, hull1, hull2, pre, resample, fill, y, x);
      var mid := WarpAll(img, hull1, hull2, pre, resample, fill);
      var t1, t2 := TriangleOf(hull1, dt[n]), TriangleOf(hull2, dt[n]);
      assert WarpAll(img, hull1, hull2, dt, resample, fill) == WarpImage(mid, t1, t2, resample, fill);
      WarpImageEffect(mid, t1, t2, resample, fill, y, x);
    }
  }

  /**
   * Every write of the triangle loop lands inside the bounding rectangle of
   * the destination hull: a sample outside it is left as it was.
   */
  lemma WarpAllWithinHullRect(img: Image, hull1: seq<Point>, hull2: seq<Point>, dt: seq<IndexTriple>,
                              resample: Resampler, fill: MaskFill, y: int, x: int)
    requires TriplesBelow(dt, |hull1|) && TriplesBelow(dt, |hull2|)
    requires 0 <= y < |img| && 0 <= x < |img[y]|
    requires !InArea(BoundingRect(hull2), x, y)
    ensures WarpAll(img, hull1, hull2, dt, resample, fill)[y][x] == img[y][x]
  {
    forall m | 0 <= m < |dt|
      ensures !InArea(TriangleRect(TriangleOf(hull2, dt[m])), x, y)
    {
      var t := TriangleOf(hull2, dt[m]);
      assert hull2[dt[m].i] in hull2 && hull2[dt[m].j] in hull2 && hull2[dt[m].k] in hull2;
      BoundingRectMonotone(Vertices(t), hull2);
    }
    WarpAllOutside(img, hull1, hull2, dt, resample, fill, y, x);
  }

  /** The destination hull: the filtered points at the hull indices. */
  function HullOf(points: seq<Point>, hullIndex: seq<nat>): seq<Point>
    requires |points| == 68
    requires forall i :: 0 <= i < |hullIndex| ==> hullIndex[i] < 44
  {
    Select(RemoveSpecificElements(points).value, hullIndex)
  }

  /** `np.copy(img2)`: a fresh frame with the same samples. */
  method CopyFrame(img: array2<int>) returns (copy: array2<int>)
    ensures fresh(copy)
    ensures copy.Length0 == img.Length0 && copy.Length1 == img.Length1
    ensures Snapshot(copy) == Snapshot(img)
  {
    copy := new int[img.Length0, img.Length1]((y, x) reads img =>
              if 0 <= y < img.Length0 && 0 <= x < img.Length1 then img[y, x] else 0);
    forall y | 0 <= y < img.Length0
      ensures Snapshot(copy)[y] == Snapshot(img)[y]
    {
      assert forall x :: 0 <= x < img.Length1 ==> Snapshot(copy)[y][x] == Snapshot(img)[y][x];
    }
  }

  /**
   * The triangle loop of `face_swap`: for each recovered triple, in order,
   * gather the source and destination triangles and warp one onto the other.
   */
  method WarpTriangles(img: array2<int>, hull1: seq<Point>, hull2: seq<Point>, dt: seq<IndexTriple>,
                       resample: Resampler, fill: MaskFill)
    requires TriplesBelow(dt, |hull1|) && TriplesBelow(dt, |hull2|)
    requires AllInFrame(hull2, img.Length0, img.Length1)
    modifies img
    ensures Snapshot(img) == WarpAll(old(Snapshot(img)), hull1, hull2, dt, resample, fill)
  {
    ghost var before := Snapshot(img);
    var i := 0;
    while i < |dt|
      invariant 0 <= i <= |dt|
      invariant Snapshot(img) == WarpAll(before, hull1, hull2, dt[..i], resample, fill)
    {
      var t1 := TriangleOf(hull1, dt[i]);
      var t2 := TriangleOf(hull2, dt[i]);
      assert forall q :: 0 <= q < 3 ==> Vertices(t2)[q] in hull2;
      TriangleRectInFrame(t2, img.Length0, img.Length1);
      WarpTriangle(img, t1, t2, resample, fill);
      assert dt[..i + 1][..i] == dt[..i];
      i := i + 1;
    }
    assert dt[..i] == dt;
  }

  /**
   * `face_swap(img1, img2, points1, points2)` up to seamless cloning. The
   * convex hull of the filtered destination points is `hullIndex`; the
   * subdivision raises unless each destination hull point lies in the frame.
   * The source frame `img1` is reached only through `resample`.
   */
  method FaceSwap(img2: array2<int>, points1: seq<Point>, points2: seq<Point>, hullIndex: seq<nat>,
                  triangulate: Triangulator, resample: Resampler, fill: MaskFill)
    returns (outcome: SwapEnd, img1Warped: array2<int>)
    requires forall i :: 0 <= i < |hullIndex| ==> hullIndex[i] < 44
    requires |points2| == 68 ==> AllInFrame(HullOf(points2, hullIndex), img2.Length0, img2.Length1)
    ensures fresh(img1Warped)
    ensures img1Warped.Length0 == img2.Length0 && img1Warped.Length1 == img2.Length1
    ensures outcome.InvalidLandmarks? <==> |points1| != 68 || |points2| != 68
    ensures outcome.InvalidLandmarks? ==> outcome.message == LengthMessage
    ensures !outcome.Clone? ==> Snapshot(img1Warped) == Snapshot(img2)
    ensures !outcome.InvalidLandmarks? ==>
              var hull1, hull2 := HullOf(points1, hullIndex), HullOf(points2, hullIndex);
              var rect := Rect(0, 0, img2.Length1, img2.Length0);
              var dt := DelaunayTriangles(rect, hull2, triangulate(rect, hull2));
              TriplesBelow(dt, |hull2|) &&
              (outcome.Quit? <==> dt == []) &&
              (outcome.Clone? ==>
                 outcome == Clone(BlendCentre(BoundingRect(hull2)), hull2) &&
                 Snapshot(img1Warped) == WarpAll(Snapshot(img2), hull1, hull2, dt, resample, fill))
  {
    img1Warped := CopyFrame(img2);

    var filtered1 := RemoveSpecificElements(points1);
    if filtered1.Failure? {
      return InvalidLandmarks(filtered1.error), img1Warped;
    }
    var filtered2 := RemoveSpecificElements(points2);
    if filtered2.Failure? {
      return InvalidLandmarks(filtered2.error), img1Warped;
    }

    var hull1, hull2 := GatherHull(filtered1.value, filtered2.value, hullIndex);
    outcome := SwapHulls(img1Warped, hull1, hull2, triangulate, resample, fill);
  }

  /**
   * `face_swap` from the hulls on: triangulate the destination hull, quit
   * when no triangle is recovered, otherwise warp every triangle into `img`
   * and give the polygon and centre for seamless cloning.
   */
  method SwapHulls(img: array2<int>, hull1: seq<Point>, hull2: seq<Point>,
                   triangulate: Triangulator, resample: Resampler, fill: MaskFill)
    returns (outcome: SwapEnd)
    requires |hull1| == |hull2|
    requires AllInFrame(hull2, img.Length0, img.Length1)
    modifies img
    ensures !outcome.InvalidLandmarks?
    ensures !outcome.Clone? ==> Snapshot(img) == old(Snapshot(img))
    ensures var rect := Rect(0, 0, img.Length1, img.Length0);
            var dt := DelaunayTriangles(rect, hull2, triangulate(rect, hull2));
            TriplesBelow(dt, |hull2|) &&
            (outcome.Quit? <==> dt == []) &&
            (outcome.Clone? ==>
               outcome == Clone(BlendCentre(BoundingRect(hull2)), hull2) &&
               Snapshot(img) == WarpAll(old(Snapshot(img)), hull1, hull2, dt, resample, fill))
  {
    var rect := Rect(0, 0, img.Length1, img.Length0);
    var dt := CalculateDelaunayTriangles(rect, hull2, triangulate(rect, hull2));
    if |dt| == 0 {
      return Quit;
    }

    WarpTriangles(img, hull1, hull2, dt, resample, fill);

    var r := BoundingRect(hull2);
    outcome := Clone(BlendCentre(r), hull2);
  }
}
