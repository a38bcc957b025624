/**
 * The constant index tables of the landmark remapper: which of MediaPipe's
 * 478 face-mesh landmarks make up the simplified 141- and 131-point sets,
 * the 68-point face-alignment set, the eye and mouth regions, and the five
 * feature groups of the 68-point set.
 */
module LandmarkTables {
  import opened IndexLists

  // The blocks of the simplified set. The 141- and 131-point lists, and the
  // eye and lip lists, are written out separately in the program with the
  // same entries; here each block is written once and shared.

  const LeftBrow: seq<nat> := [70, 63, 105, 66, 107, 55, 65, 52, 53, 46]
  const RightBrow: seq<nat> := [300, 293, 334, 296, 336, 285, 295, 282, 283, 276]
  const LeftEye: seq<nat> := [33, 246, 161, 160, 159, 158, 157, 173, 133, 155, 154, 153, 145, 144, 163, 7]
  const RightEye: seq<nat> := [263, 466, 388, 387, 386, 385, 384, 398, 362, 382, 381, 380, 374, 373, 390, 249]
  const InnerLip: seq<nat> := [78, 191, 80, 81, 82, 13, 312, 311, 310, 415, 308, 324, 318, 402, 317, 14, 87, 178, 88, 95]
  const OuterLip: seq<nat> := [61, 185, 40, 39, 37, 0, 267, 269, 270, 409, 291, 375, 321, 405, 314, 17, 84, 181, 91, 146]
  const FaceOvalRight: seq<nat> := [10, 338, 297, 332, 284, 251, 389, 356, 454, 323, 361, 288, 397, 365, 379, 378, 400, 377]
  const FaceOvalChin: seq<nat> := [152, 148, 176, 149, 150, 136]
  const FaceOvalLeft: seq<nat> := [172, 58, 132, 93, 234, 127, 162, 21, 54, 103, 67, 109]
  const FaceOval: seq<nat> := FaceOvalRight + FaceOvalChin + FaceOvalLeft
  const LeftIris: seq<nat> := [468, 469, 470, 471, 472]
  const RightIris: seq<nat> := [473, 474, 475, 476, 477]
  const NoseBase: seq<nat> := [64, 4, 294]

  /** The 128 contour points shared by the 141- and 131-point sets. */
  const Contours: seq<nat> := LeftBrow + RightBrow + LeftEye + RightEye + InnerLip + OuterLip + FaceOval

  /** `index_lm141_from_lm478`. */
  const Lm141: seq<nat> := Contours + LeftIris + RightIris + NoseBase

  /** `index_lm131_from_lm478`: the 141-point set without the iris. */
  const Lm131: seq<nat> := Contours + NoseBase

  // `index_lm68_from_lm478`, block by block along the 68-point feature groups.
  const JawLine68: seq<nat> := [127, 234, 93, 132, 58, 136, 150, 176, 152, 400, 379, 365, 288, 361, 323, 454, 356]
  const Brows68: seq<nat> := [70, 63, 105, 66, 107, 336, 296, 334, 293, 300]
  const Nose68: seq<nat> := [168, 197, 5, 4, 75, 97, 2, 326, 305]
  const Eyes68: seq<nat> := [33, 160, 158, 133, 153, 144, 362, 385, 387, 263, 373, 380]
  const Lips68: seq<nat> := [61, 40, 37, 0, 267, 270, 291, 321, 314, 17, 84, 91, 78, 81, 13, 311, 308, 402, 14, 178]

  /** `index_lm68_from_lm478`: the 68-point face-alignment set. */
  const Lm68: seq<nat> := JawLine68 + Brows68 + Nose68 + Eyes68 + Lips68

  /** `unmatch_mask_from_lm478`: face-oval points given their own weight. */
  const Unmatch: seq<nat> := [93, 127, 132, 234, 323, 356, 361, 454]

  /** `index_eye_from_lm478`. */
  const Eye: seq<nat> := LeftEye + RightEye

  /** `index_withinmouth_from_lm478` (it lists 72 twice). */
  const WithinMouth: seq<nat> :=
    [76, 62]
    + [184, 183, 74, 72, 73, 41, 72, 38, 11, 12, 302, 268, 303, 271, 304, 272, 408, 407]
    + [292, 306]
    + [325, 307, 319, 320, 403, 404, 316, 315, 15, 16, 86, 85, 179, 180, 89, 90, 96, 77]

  /** `index_mouth_from_lm478`. */
  const Mouth: seq<nat> := InnerLip + OuterLip + WithinMouth

  // The feature groups of the 68-point set.
  const Yaw: seq<nat> := Range(0, 17)
  const Brow: seq<nat> := Range(17, 27)
  const Nose: seq<nat> := Range(27, 36)
  const Eye68: seq<nat> := Range(36, 48)
  const Mouth68: seq<nat> := Range(48, 68)

  function Count(b: bool): nat { if b then 1 else 0 }

  /** Every index of `s` is below `n`. */
  predicate AllBelow(s: seq<nat>, n: nat)
  {
    forall k :: k in s ==> k < n
  }

  /** The 68-point table has 68 entries, each a landmark of the 478-point mesh. */
  lemma Lm68Table()
    ensures |Lm68| == 68 && AllBelow(Lm68, 478)
    ensures Lm68[..17] == JawLine68
  {
    Lm68BlocksBelow();
    assert Lm68 == JawLine68 + (Brows68 + Nose68 + Eyes68 + Lips68);
  }

  lemma Lm68BlocksBelow()
    ensures AllBelow(JawLine68, 478) && AllBelow(Brows68, 478) && AllBelow(Nose68, 478)
    ensures AllBelow(Eyes68, 478) && AllBelow(Lips68, 478)
  {
    JawLineAndBrowsBelow();
    NoseEyesLipsBelow();
  }

  lemma JawLineAndBrowsBelow()
    ensures AllBelow(JawLine68, 478) && AllBelow(Brows68, 478)
  {
  }

  lemma NoseEyesLipsBelow()
    ensures AllBelow(Nose68, 478) && AllBelow(Eyes68, 478) && AllBelow(Lips68, 478)
  {
  }

  lemma ContourBlocksBelow()
    ensures AllBelow(LeftBrow, 468) && AllBelow(RightBrow, 468) && AllBelow(LeftEye, 468)
    ensures AllBelow(RightEye, 468) && AllBelow(InnerLip, 468) && AllBelow(OuterLip, 468)
    ensures AllBelow(FaceOval, 468) && AllBelow(NoseBase, 468)
  {
    BrowsAndEyesBelow();
    LipsBelow();
    FaceOvalBelow();
  }

  lemma BrowsAndEyesBelow()
    ensures AllBelow(LeftBrow, 468) && AllBelow(RightBrow, 468)
    ensures AllBelow(LeftEye, 468) && AllBelow(RightEye, 468)
  {
  }

  lemma LipsBelow()
    ensures AllBelow(InnerLip, 468) && AllBelow(OuterLip, 468)
  {
  }

  lemma FaceOvalBelow()
    ensures AllBelow(FaceOval, 468) && AllBelow(NoseBase, 468)
  {
    FaceOvalPartsBelow();
  }

  lemma FaceOvalPartsBelow()
    ensures AllBelow(FaceOvalRight, 468) && AllBelow(FaceOvalChin, 468) && AllBelow(FaceOvalLeft, 468)
  {
  }

  lemma WithinMouthBelow()
    ensures |WithinMouth| == 40 && AllBelow(WithinMouth, 478)
  {
  }

  /**
   * The 141-point table has 141 mesh landmarks, with the ten iris points
   * 468-477 at positions 128-137; the 131-point table is the same list with
   * those ten removed.
   */
  lemma Lm141Table()
    ensures |Contours| == 128 && |Lm141| == 141 && |Lm131| == 131
    ensures AllBelow(Lm141, 478) && AllBelow(Lm131, 478)
    ensures Lm141[128..138] == Range(468, 478)
    ensures Lm131 == Lm141[..128] + Lm141[138..]
  {
    ContoursBelow();
    IrisRange();
    Lm141Layout();
    var c, iris := Contours, LeftIris + RightIris;
    assert Lm141 == c + iris + NoseBase;
    assert Lm131 == c + NoseBase;
    assert AllBelow(NoseBase, 468) && AllBelow(iris, 478);
  }

  lemma ContoursBelow()
    ensures AllBelow(Contours, 468)
  {
    ContourBlocksBelow();
  }

  lemma IrisRange()
    ensures LeftIris + RightIris == Range(468, 478)
  {
    forall k | 0 <= k < 10 ensures (LeftIris + RightIris)[k] == 468 + k {
      if k < 5 { assert (LeftIris + RightIris)[k] == LeftIris[k]; }
      else { assert (LeftIris + RightIris)[k] == RightIris[k - 5]; }
    }
  }

  lemma Lm141Layout()
    ensures |Contours| == 128
    ensures Lm141[..128] == Contours
    ensures Lm141[128..138] == LeftIris + RightIris
    ensures Lm141[138..] == NoseBase
  {
    var c, iris := Contours, LeftIris + RightIris;
    assert |c| == 128;
    assert Lm141 == c + iris + NoseBase;
  }

  /** The eye region has 32 landmarks and the mouth region 80, all mesh landmarks. */
  lemma RegionTables()
    ensures |Eye| == 32 && AllBelow(Eye, 478)
    ensures |Mouth| == 80 && AllBelow(Mouth, 478)
  {
    ContourBlocksBelow();
    WithinMouthBelow();
  }

  /** The face-oval points of `Unmatch` are all jaw-line (yaw) landmarks of the 68-point set. */
  lemma UnmatchOnJawLine()
    ensures forall u :: u in Unmatch ==> u in Lm68[..17]
  {
    Lm68Table();
  }

  /**
   * The five groups of the 68-point set are contiguous, in order, and
   * together list every index 0-67 exactly once.
   */
  lemma GroupsPartition()
    ensures Yaw + Brow + Nose + Eye68 + Mouth68 == Range(0, 68)
    ensures forall k :: 0 <= k < 68 ==>
              Count(k in Yaw) + Count(k in Brow) + Count(k in Nose) +
              Count(k in Eye68) + Count(k in Mouth68) == 1
  {
    RangeMembers(0, 17);
    RangeMembers(17, 27);
    RangeMembers(27, 36);
    RangeMembers(36, 48);
    RangeMembers(48, 68);
    var all := Yaw + Brow + Nose + Eye68 + Mouth68;
    assert |all| == 68;
    forall k | 0 <= k < 68 ensures all[k] == k {
      if k < 17 { assert all[k] == Yaw[k]; }
      else if k < 27 { assert all[k] == Brow[k - 17]; }
      else if k < 36 { assert all[k] == Nose[k - 27]; }
      else if k < 48 { assert all[k] == Eye68[k - 36]; }
      else { assert all[k] == Mouth68[k - 48]; }
    }
  }
}
