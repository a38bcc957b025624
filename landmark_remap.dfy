/**
 * The derived point sets of the landmark remapper: the 17-point half-face
 * polygon and the 16-point "homo" set built from a 68-point landmark set,
 * the per-point shifts that turn the half-face polygon into a mask outline,
 * and the per-frame conversions the save functions apply before writing.
 */
module LandmarkRemap {
  import opened Geometry

  /**
   * `mv_pts(p, dx, dy)`: the point moved by `(dx, dy)` and rounded; rounding
   * is exact on integer coordinates.
   */
  function MvPts(p: Point, dx: int, dy: int): (q: Point)
    ensures q == p <==> dx == 0 && dy == 0
    ensures q.x - p.x == dx && q.y - p.y == dy
  {
    Point(p.x + dx, p.y + dy)
  }

  /** Moving by `(dx, dy)` and then by `(-dx, -dy)` gives the point back; moves compose. */
  lemma MvPtsInverse(p: Point, dx: int, dy: int, ex: int, ey: int)
    ensures MvPts(MvPts(p, dx, dy), -dx, -dy) == p
    ensures MvPts(MvPts(p, dx, dy), ex, ey) == MvPts(p, dx + ex, dy + ey)
    ensures MvPts(p, dx, dy) == p <==> dx == 0 && dy == 0
  {
  }

  /**
   * Landmark `i` of the contour block (2-14): the left side (2-6) moved right
   * by `padding`, the right side (10-14) moved left by it, the chin (7-9) kept.
   */
  function PaddedContour(landmark: seq<Point>, i: nat, padding: int): Point
    requires i < |landmark|
  {
    if 2 <= i <= 6 then Point(landmark[i].x + padding, landmark[i].y)
    else if 10 <= i <= 14 then Point(landmark[i].x - padding, landmark[i].y)
    else landmark[i]
  }

  /** The 13 contour points both derived sets start with: landmarks 2-14, padded inward. */
  function ContourBlock(landmark: seq<Point>, padding: int): seq<Point>
    requires |landmark| > 14
  {
    seq(13, j requires 0 <= j < 13 => PaddedContour(landmark, j + 2, padding))
  }

  /**
   * The contour block keeps each landmark's row and moves the two sides of
   * the jaw toward each other by the same amount; with no padding it is
   * landmarks 2-14 unchanged.
   */
  lemma ContourBlockPadding(landmark: seq<Point>, padding: int)
    requires |landmark| > 14
    ensures var b := ContourBlock(landmark, padding);
            |b| == 13 &&
            (forall j :: 0 <= j < 13 ==> b[j].y == landmark[j + 2].y) &&
            (forall j :: 0 <= j < 13 ==>
               b[j].x - landmark[j + 2].x == -(b[12 - j].x - landmark[14 - j].x)) &&
            (forall j :: 0 <= j < 5 ==> b[j].x == landmark[j + 2].x + padding) &&
            (forall j :: 5 <= j < 8 ==> b[j] == landmark[j + 2])
    ensures ContourBlock(landmark, 0) == landmark[2..15]
  {
  }

  /** The 17-point half-face polygon: the contour block, then four points around the nose base. */
  function HalfFace(landmark: seq<Point>, padding: int): seq<Point>
    requires |landmark| > 35
  {
    ContourBlock(landmark, padding) +
    [Point(landmark[35].x + padding, landmark[14].y),
     Point(landmark[35].x + padding, landmark[33].y + padding),
     Point(landmark[31].x - padding, landmark[33].y + padding),
     Point(landmark[31].x - padding, landmark[2].y)]
  }

  /**
   * The polygon closes with axis-aligned edges: from the row of landmark 14
   * straight down to the row below the nose, across to the far side of the
   * nose, and up to the row of landmark 2, where it meets the first point.
   */
  lemma HalfFaceClosesSquare(landmark: seq<Point>, padding: int)
    requires |landmark| > 35
    ensures var h := HalfFace(landmark, padding);
            |h| == 17 &&
            h[13].y == h[12].y && h[13].x == h[14].x &&
            h[14].y == h[15].y && h[15].x == h[16].x &&
            h[16].y == h[0].y
  {
  }

  /** The 16-point "homo" set: the contour block with padding 2, then landmarks 35, 29 and 31. */
  function Homolm(landmarks: seq<Point>): seq<Point>
    requires |landmarks| > 35
  {
    ContourBlock(landmarks, 2) + [landmarks[35], landmarks[29], landmarks[31]]
  }

  /**
   * The "homo" set shares its first 13 points with the half-face polygon at
   * the default padding, and ends with copies of landmarks 35, 29 and 31.
   */
  lemma HomolmSharesContour(landmarks: seq<Point>)
    requires |landmarks| > 35
    ensures |Homolm(landmarks)| == 16
    ensures Homolm(landmarks)[..13] == HalfFace(landmarks, 2)[..13]
    ensures Homolm(landmarks)[13..] == [landmarks[35], landmarks[29], landmarks[31]]
  {
    assert Homolm(landmarks)[..13] == ContourBlock(landmarks, 2);
    assert HalfFace(landmarks, 2)[..13] == ContourBlock(landmarks, 2);
  }

  /**
   * `get_half_face_landmarks_list`: a loop over the 68 indices appends the
   * padded contour points 2-14, then the four closing points are appended.
   */
  method GetHalfFaceLandmarksList(landmark: seq<Point>, padding: int) returns (half: seq<Point>)
    requires |landmark| > 35
    ensures half == HalfFace(landmark, padding)
  {
    half := [];
    for i := 0 to 68
      invariant |half| == Max(0, Min(i, 15) - 2)
      invariant forall j :: 0 <= j < |half| ==> half[j] == PaddedContour(landmark, j + 2, padding)
    {
      if 1 < i < 15 {
        if i in [2, 3, 4, 5, 6] {
          half := half + [Point(landmark[i].x + padding, landmark[i].y)];
        } else if i in [10, 11, 12, 13, 14] {
          half := half + [Point(landmark[i].x - padding, landmark[i].y)];
        } else {
          half := half + [landmark[i]];
        }
      }
    }
    assert half == ContourBlock(landmark, padding);
    half := half + [Point(landmark[35].x + padding, landmark[14].y)];
    half := half + [Point(landmark[35].x + padding, landmark[33].y + padding)];
    half := half + [Point(landmark[31].x - padding, landmark[33].y + padding)];
    half := half + [Point(landmark[31].x - padding, landmark[2].y)];
  }

  /** `convert68_to_homolm`: the same loop with padding 2, then copies of landmarks 35, 29 and 31. */
  method Convert68ToHomolm(landmarks: seq<Point>) returns (homo: seq<Point>)
    requires |landmarks| > 35
    ensures homo == Homolm(landmarks)
  {
    homo := [];
    for i := 0 to 68
      invariant |homo| == Max(0, Min(i, 15) - 2)
      invariant forall j :: 0 <= j < |homo| ==> homo[j] == PaddedContour(landmarks, j + 2, 2)
    {
      if 1 < i < 15 {
        if i in [2, 3, 4, 5, 6] {
          homo := homo + [Point(landmarks[i].x + 2, landmarks[i].y)];
        } else if i in [10, 11, 12, 13, 14] {
          homo := homo + [Point(landmarks[i].x - 2, landmarks[i].y)];
        } else {
          homo := homo + [landmarks[i]];
        }
      }
    }
    assert homo == ContourBlock(landmarks, 2);
    homo := homo + [Point(landmarks[35].x, landmarks[35].y)];
    homo := homo + [Point(landmarks[29].x, landmarks[29].y)];
    homo := homo + [Point(landmarks[31].x, landmarks[31].y)];
  }

  /** The shift `save_half_face_mask_landmarks` applies to point `j` of the half-face polygon. */
  function MaskShift(j: nat): (d: Point)
    ensures j < 17 <==> d != Point(0, 0)
    ensures -5 <= d.x <= 5 && -3 <= d.y <= 3
  {
    if j <= 4 then Point(5, 0)
    else if 5 <= j <= 7 then
      (if j == 5 then Point(3, -3) else if j == 6 then Point(0, -3) else Point(-3, -3))
    else if 8 <= j <= 12 then Point(-5, 0)
    else if j == 13 then Point(3, 0)
    else if j == 14 then Point(3, 3)
    else if j == 15 then Point(-3, 3)
    else if j == 16 then Point(-3, 0)
    else Point(0, 0)
  }

  /**
   * Every one of the 17 points moves, and the table is mirror-symmetric:
   * along the contour, point `j` and point `12 - j` move by opposite
   * horizontal amounts and the same vertical amount, and likewise points
   * `j` and `29 - j` of the closing four.
   */
  lemma MaskShiftTable()
    ensures forall j :: 0 <= j < 17 ==> MaskShift(j) != Point(0, 0)
    ensures forall j :: 0 <= j <= 12 ==>
              MaskShift(12 - j).x == -MaskShift(j).x && MaskShift(12 - j).y == MaskShift(j).y
    ensures forall j :: 13 <= j <= 16 ==>
              MaskShift(29 - j).x == -MaskShift(j).x && MaskShift(29 - j).y == MaskShift(j).y
  {
    forall j | 0 <= j <= 12
      ensures MaskShift(12 - j).x == -MaskShift(j).x && MaskShift(12 - j).y == MaskShift(j).y
    {
      if j <= 4 {
        assert 8 <= 12 - j;
      } else if j == 5 {
      } else if j == 6 {
      } else if j == 7 {
      } else {
        assert 12 - j <= 4;
      }
    }
  }

  /** The mask outline of one frame: each half-face point moved by its shift. */
  function MaskOutline(landmark: seq<Point>): seq<Point>
    requires |landmark| > 35
  {
    var h := HalfFace(landmark, 2);
    seq(17, j requires 0 <= j < 17 => MvPts(h[j], MaskShift(j).x, MaskShift(j).y))
  }

  /** Every mask-outline point differs from the half-face point it was moved from. */
  lemma MaskOutlineMovesEveryPoint(landmark: seq<Point>)
    requires |landmark| > 35
    ensures |MaskOutline(landmark)| == 17
    ensures forall j :: 0 <= j < 17 ==> MaskOutline(landmark)[j] != HalfFace(landmark, 2)[j]
  {
    MaskShiftTable();
    forall j | 0 <= j < 17 ensures MaskOutline(landmark)[j] != HalfFace(landmark, 2)[j] {
      var h := HalfFace(landmark, 2);
      MvPtsInverse(h[j], MaskShift(j).x, MaskShift(j).y, 0, 0);
    }
  }

  /** Every frame has enough landmarks for the derived sets. */
  predicate FramesHave36(landmarks: seq<seq<Point>>)
  {
    forall t :: 0 <= t < |landmarks| ==> |landmarks[t]| > 35
  }

  /**
   * The data `save_half_face_mask_landmarks` writes: per frame, the
   * half-face polygon at the default padding, then each point
   * `half_pts[j]` replaced in place by its shifted copy.
   */
  method SaveHalfFaceMaskLandmarks(landmarks: seq<seq<Point>>) returns (data: seq<seq<Point>>)
    requires FramesHave36(landmarks)
    ensures |data| == |landmarks|
    ensures forall t :: 0 <= t < |landmarks| ==> data[t] == MaskOutline(landmarks[t])
  {
    data := [];
    for t := 0 to |landmarks|
      invariant |data| == t
      invariant forall s :: 0 <= s < t ==> data[s] == MaskOutline(landmarks[s])
    {
      var halfList := GetHalfFaceLandmarksList(landmarks[t], 2);
      var halfPts := new Point[17](j requires 0 <= j < 17 => halfList[j]);
      for j := 0 to 17
        invariant forall k :: 0 <= k < j ==>
                    halfPts[k] == MvPts(halfList[k], MaskShift(k).x, MaskShift(k).y)
        invariant forall k :: j <= k < 17 ==> halfPts[k] == halfList[k]
      {
        var p := halfPts[j];
        if 0 <= j <= 4 {
          halfPts[j] := MvPts(p, 5, 0);
        } else if 5 <= j <= 7 {
          if j == 5 {
            halfPts[j] := MvPts(p, 3, -3);
          } else if j == 6 {
            halfPts[j] := MvPts(p, 0, -3);
          } else if j == 7 {
            halfPts[j] := MvPts(p, -3, -3);
          }
        } else if 8 <= j <= 12 {
          halfPts[j] := MvPts(p, -5, 0);
        } else {
          if j == 13 {
            halfPts[j] := MvPts(p, 3, 0);
          }
          if j == 14 {
            halfPts[j] := MvPts(p, 3, 3);
          }
          if j == 15 {
            halfPts[j] := MvPts(p, -3, 3);
          }
          if j == 16 {
            halfPts[j] := MvPts(p, -3, 0);
          }
        }
      }
      assert halfPts[..] == MaskOutline(landmarks[t]);
      data := data + [halfPts[..]];
    }
  }

  /** The data `save_half_face_landmarks` writes: per frame, the half-face polygon at the default padding. */
  method SaveHalfFaceLandmarks(landmarks: seq<seq<Point>>) returns (data: seq<seq<Point>>)
    requires FramesHave36(landmarks)
    ensures |data| == |landmarks|
    ensures forall t :: 0 <= t < |landmarks| ==> data[t] == HalfFace(landmarks[t], 2)
  {
    data := [];
    for t := 0 to |landmarks|
      invariant |data| == t
      invariant forall s :: 0 <= s < t ==> data[s] == HalfFace(landmarks[s], 2)
    {
      var halfPts := GetHalfFaceLandmarksList(landmarks[t], 2);
      data := data + [halfPts];
    }
  }

  /** The data `save_homolm` writes: per frame, the 16-point "homo" set. */
  method SaveHomolm(landmarks: seq<seq<Point>>) returns (data: seq<seq<Point>>)
    requires FramesHave36(landmarks)
    ensures |data| == |landmarks|
    ensures forall t :: 0 <= t < |landmarks| ==> data[t] == Homolm(landmarks[t])
  {
    data := [];
    for t := 0 to |landmarks|
      invariant |data| == t
      invariant forall s :: 0 <= s < t ==> data[s] == Homolm(landmarks[s])
    {
      var halfPts := Convert68ToHomolm(landmarks[t]);
      data := data + [halfPts];
    }
  }
}
