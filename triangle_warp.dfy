/**
 * The per-triangle warp: both triangles are moved into the local frame of
 * their own bounding rectangles, a foreign resampler warps the source patch
 * onto the destination patch, a foreign rasteriser fills the destination
 * triangle into a mask, and the destination frame is updated in place,
 * inside the destination rectangle only, as `old * (1 - mask) + warped * mask`.
 */
module TriangleWarp {
  import opened Geometry

  /** A frame as rows of samples: `img[y][x]`. */
  type Image = seq<seq<int>>

  /**
   * The affine resampler (`getAffineTransform` and `warpAffine` over the
   * source frame): from the source rectangle, the two local triangles and
   * the destination patch width and height, the warped sample at local
   * `(row, col)`.
   */
  type Resampler = (Rect, Triangle, Triangle, int, int, int, int) -> int

  /**
   * The rasteriser (`fillConvexPoly` on a zeroed patch of the given width
   * and height): the mask value at local `(row, col)` for the local triangle.
   */
  type MaskFill = (Triangle, int, int, int, int) -> int

  /** Every row of `img` has `cols` samples. */
  predicate Rectangular(img: Image, cols: nat)
  {
    forall y :: 0 <= y < |img| ==> |img[y]| == cols
  }

  /** The contents of a frame buffer, row by row. */
  ghost function Snapshot(a: array2<int>): (img: Image)
    reads a
    ensures |img| == a.Length0 && Rectangular(img, a.Length1)
    ensures forall y, x :: 0 <= y < a.Length0 && 0 <= x < a.Length1 ==> img[y][x] == a[y, x]
  {
    seq(a.Length0, y requires 0 <= y < a.Length0 reads a =>
      seq(a.Length1, x requires 0 <= x < a.Length1 reads a => a[y, x]))
  }

  /**
   * The masked write of one sample: a zero mask keeps the old value, a mask
   * of one takes the warped value.
   */
  function Blend(prior: int, mask: int, warped: int): (v: int)
    ensures mask == 0 ==> v == prior
    ensures mask == 1 ==> v == warped
  {
    prior * (1 - mask) + warped * mask
  }

  /** The triangle in the local frame of rectangle `r`: each point minus the top-left corner. */
  function Offset(t: Triangle, r: Rect): Triangle
  {
    Triangle(Point(t.a.x - r.x, t.a.y - r.y), Point(t.b.x - r.x, t.b.y - r.y), Point(t.c.x - r.x, t.c.y - r.y))
  }

  function TriangleRect(t: Triangle): Rect
  {
    BoundingRect(Vertices(t))
  }

  /** The local point `p` lies in the `w` by `h` patch of rectangle `r`. */
  predicate InPatch(p: Point, r: Rect)
  {
    0 <= p.x < r.w && 0 <= p.y < r.h
  }

  /** The rectangle `r` lies inside a frame of `rows` by `cols` samples. */
  predicate RectInFrame(r: Rect, rows: nat, cols: nat)
  {
    0 <= r.x && 0 <= r.y && r.x + r.w <= cols && r.y + r.h <= rows
  }

  /**
   * A triangle's local coordinates lie in the patch `[0, w) x [0, h)` of its
   * bounding rectangle, touch its left and top sides, and give the triangle
   * back once the corner is added again.
   */
  lemma LocalTriangleInPatch(t: Triangle)
    ensures var r := TriangleRect(t); var l := Offset(t, r);
            InPatch(l.a, r) && InPatch(l.b, r) && InPatch(l.c, r) &&
            (l.a.x == 0 || l.b.x == 0 || l.c.x == 0) &&
            (l.a.y == 0 || l.b.y == 0 || l.c.y == 0) &&
            Offset(l, Rect(-r.x, -r.y, r.w, r.h)) == t
  {
    var vs := Vertices(t);
    BoundingRectCovers(vs);
    assert vs[0] == t.a && vs[1] == t.b && vs[2] == t.c;
  }

  /** The sample at `(x, y)` after warping `t1` onto `t2`, given its value before. */
  function WarpedSample(prior: int, x: int, y: int, t1: Triangle, t2: Triangle,
                        resample: Resampler, fill: MaskFill): int
  {
    var r1, r2 := TriangleRect(t1), TriangleRect(t2);
    var l1, l2 := Offset(t1, r1), Offset(t2, r2);
    if InArea(r2, x, y) then
      Blend(prior, fill(l2, r2.w, r2.h, y - r2.y, x - r2.x), resample(r1, l1, l2, r2.w, r2.h, y - r2.y, x - r2.x))
    else prior
  }

  /** The frame after `warp_triangle(img1, img, t1, t2)`. */
  function WarpImage(img: Image, t1: Triangle, t2: Triangle, resample: Resampler, fill: MaskFill): Image
  {
    seq(|img|, y requires 0 <= y < |img| =>
      seq(|img[y]|, x requires 0 <= x < |img[y]| => WarpedSample(img[y][x], x, y, t1, t2, resample, fill)))
  }

  /**
   * The warp keeps the frame's shape and writes only inside the destination
   * triangle's bounding rectangle; inside it, a zero mask keeps the old
   * sample and a mask of one takes the resampled one.
   */
  lemma WarpImageEffect(img: Image, t1: Triangle, t2: Triangle, resample: Resampler, fill: MaskFill,
                        y: int, x: int)
    requires 0 <= y < |img| && 0 <= x < |img[y]|
    ensures var out, r2 := WarpImage(img, t1, t2, resample, fill), TriangleRect(t2);
            var l1, l2 := Offset(t1, TriangleRect(t1)), Offset(t2, r2);
            |out| == |img| && |out[y]| == |img[y]| &&
            (!InArea(r2, x, y) ==> out[y][x] == img[y][x]) &&
            (InArea(r2, x, y) && fill(l2, r2.w, r2.h, y - r2.y, x - r2.x) == 0 ==> out[y][x] == img[y][x]) &&
            (InArea(r2, x, y) && fill(l2, r2.w, r2.h, y - r2.y, x - r2.x) == 1 ==>
               out[y][x] == resample(TriangleRect(t1), l1, l2, r2.w, r2.h, y - r2.y, x - r2.x))
  {
  }

  /**
   * `warp_triangle`: overwrite, in place, the destination rectangle of
   * `img2` with the masked blend of its old samples and the resampled patch.
   * Numpy's slice write needs the rectangle inside the frame.
   */
  method WarpTriangle(img2: array2<int>, t1: Triangle, t2: Triangle, resample: Resampler, fill: MaskFill)
    requires RectInFrame(TriangleRect(t2), img2.Length0, img2.Length1)
    modifies img2
    ensures Snapshot(img2) == WarpImage(old(Snapshot(img2)), t1, t2, resample, fill)
  {
    var r1, r2 := TriangleRect(t1), TriangleRect(t2);
    var t1Rect := Offset(t1, r1);
    var t2Rect := Offset(t2, r2);
    WarpRect(img2, r1, r2, t1Rect, t2Rect, resample, fill);
    BlendedIsWarped(img2, old(Snapshot(img2)), t1, t2, resample, fill);
  }

  /**
   * The destination rectangle `r2`, written row by row: each of its samples
   * becomes the blend of its old value with the resampled one.
   */
  method WarpRect(img2: array2<int>, r1: Rect, r2: Rect, l1: Triangle, l2: Triangle,
                  resample: Resampler, fill: MaskFill)
    requires RectInFrame(r2, img2.Length0, img2.Length1) && 0 <= r2.w && 0 <= r2.h
    modifies img2
    ensures forall y, x :: 0 <= y < img2.Length0 && 0 <= x < img2.Length1 ==>
              img2[y, x] == if InArea(r2, x, y)
                            then Blend(old(img2[y, x]), fill(l2, r2.w, r2.h, y - r2.y, x - r2.x),
                                       resample(r1, l1, l2, r2.w, r2.h, y - r2.y, x - r2.x))
                            else old(img2[y, x])
  {
    var row := 0;
    while row < r2.h
      invariant 0 <= row <= r2.h
      invariant forall y, x :: 0 <= y < img2.Length0 && 0 <= x < img2.Length1 ==>
                  img2[y, x] == if InArea(r2, x, y) && y < r2.y + row
                                then Blend(old(img2[y, x]), fill(l2, r2.w, r2.h, y - r2.y, x - r2.x),
                                           resample(r1, l1, l2, r2.w, r2.h, y - r2.y, x - r2.x))
                                else old(img2[y, x])
    {
      WarpRow(img2, r1, r2, l1, l2, resample, fill, row);
      row := row + 1;
    }
  }

  /**
   * A frame whose destination rectangle holds the blended samples of
   * `before`, and which elsewhere holds `before` unchanged, is the warped
   * frame of `before`.
   */
  lemma BlendedIsWarped(img2: array2<int>, before: Image, t1: Triangle, t2: Triangle,
                        resample: Resampler, fill: MaskFill)
    requires |before| == img2.Length0 && Rectangular(before, img2.Length1)
    requires var r1, r2 := TriangleRect(t1), TriangleRect(t2);
             var l1, l2 := Offset(t1, r1), Offset(t2, r2);
             forall y, x :: 0 <= y < img2.Length0 && 0 <= x < img2.Length1 ==>
               img2[y, x] == if InArea(r2, x, y)
                             then Blend(before[y][x], fill(l2, r2.w, r2.h, y - r2.y, x - r2.x),
                                        resample(r1, l1, l2, r2.w, r2.h, y - r2.y, x - r2.x))
                             else before[y][x]
    ensures Snapshot(img2) == WarpImage(before, t1, t2, resample, fill)
  {
    var out := WarpImage(before, t1, t2, resample, fill);
    forall y | 0 <= y < img2.Length0
      ensures Snapshot(img2)[y] == out[y]
    {
      forall x | 0 <= x < img2.Length1
        ensures Snapshot(img2)[y][x] == out[y][x]
      {
        assert out[y][x] == WarpedSample(before[y][x], x, y, t1, t2, resample, fill);
      }
    }
  }

  /**
   * Row `row` of the destination rectangle `r2`, written column by column:
   * each sample becomes the blend of its old value with the resampled one.
   */
  method WarpRow(img2: array2<int>, r1: Rect, r2: Rect, l1: Triangle, l2: Triangle,
                 resample: Resampler, fill: MaskFill, row: int)
    requires RectInFrame(r2, img2.Length0, img2.Length1) && 0 <= row < r2.h && 0 <= r2.w
    modifies img2
    ensures forall v, x :: 0 <= v < img2.Length0 && 0 <= x < img2.Length1 ==>
              img2[v, x] == if v == r2.y + row && r2.x <= x < r2.x + r2.w
                            then Blend(old(img2[v, x]), fill(l2, r2.w, r2.h, row, x - r2.x),
                                       resample(r1, l1, l2, r2.w, r2.h, row, x - r2.x))
                            else old(img2[v, x])
  {
    var y := r2.y + row;
    var col := 0;
    while col < r2.w
      invariant 0 <= col <= r2.w
      invariant forall v, x :: 0 <= v < img2.Length0 && 0 <= x < img2.Length1 ==>
                  img2[v, x] == if v == y && r2.x <= x < r2.x + col
                                then Blend(old(img2[v, x]), fill(l2, r2.w, r2.h, row, x - r2.x),
                                           resample(r1, l1, l2, r2.w, r2.h, row, x - r2.x))
                                else old(img2[v, x])
    {
      var x := r2.x + col;
      img2[y, x] := Blend(img2[y, x], fill(l2, r2.w, r2.h, row, col),
                          resample(r1, l1, l2, r2.w, r2.h, row, col));
      col := col + 1;
    }
  }
}
