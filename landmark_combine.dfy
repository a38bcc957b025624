/**
 * The combiners that splice the landmarks MediaPipe reports in video mode
 * with those it reports in image mode, frame by frame: the 68-point set
 * takes its jaw line, brows and nose from video mode and its eyes and mouth
 * from image mode; the full 478-point mesh takes video mode except for the
 * mouth and eye regions, which come from image mode.
 */
module LandmarkCombine {
  import opened IndexLists
  import opened LandmarkTables

  /** The points of `frame` at the listed indices: numpy's `frame[idx]`. */
  function Gather<P>(frame: seq<P>, idx: seq<nat>): (g: seq<P>)
    requires forall i :: 0 <= i < |idx| ==> idx[i] < |frame|
    ensures |g| == |idx|
    ensures forall i :: 0 <= i < |idx| ==> g[i] == frame[idx[i]]
  {
    seq(|idx|, i requires 0 <= i < |idx| => frame[idx[i]])
  }

  /**
   * Indexing by an index list and then by a second list picks what indexing
   * once by the composed list picks: `frame[a][b] == frame[a[b]]`.
   */
  lemma GatherCompose<P>(frame: seq<P>, a: seq<nat>, b: seq<nat>)
    requires forall i :: 0 <= i < |a| ==> a[i] < |frame|
    requires forall i :: 0 <= i < |b| ==> b[i] < |a|
    ensures forall i :: 0 <= i < |b| ==> Gather(a, b)[i] < |frame|
    ensures Gather(Gather(frame, a), b) == Gather(frame, Gather(a, b))
  {
  }

  /** Indexing by every position in order gives the frame back. */
  lemma GatherAll<P>(frame: seq<P>)
    ensures Gather(frame, Range(0, |frame|)) == frame
  {
    RangeMembers(0, |frame|);
    assert forall i :: 0 <= i < |frame| ==> Range(0, |frame|)[i] == i;
  }

  /** Every listed index is a position of every frame. */
  predicate IndexedBy<P>(frames: seq<seq<P>>, idx: seq<nat>)
  {
    forall t, i :: 0 <= t < |frames| && 0 <= i < |idx| ==> idx[i] < |frames[t]|
  }

  /**
   * The slice write `row[slots] = src[slots]` on the working copy of one
   * frame: the listed positions take the source's points, the others keep
   * theirs.
   */
  method CopySlots<P>(row: array<P>, src: seq<P>, slots: seq<nat>)
    requires forall i :: 0 <= i < |slots| ==> slots[i] < row.Length && slots[i] < |src|
    modifies row
    ensures forall k :: 0 <= k < row.Length ==> row[k] == if k in slots then src[k] else old(row[k])
  {
    for j := 0 to |slots|
      invariant forall k :: 0 <= k < row.Length ==>
                  row[k] == if k in slots[..j] then src[k] else old(row[k])
    {
      row[slots[j]] := src[slots[j]];
      assert slots[..j + 1] == slots[..j] + [slots[j]];
    }
    assert slots[..|slots|] == slots;
  }

  /**
   * `combine_vid_img_lm478_to_lm68`: per frame, a copy of the image-mode
   * 68-point set whose jaw-line, brow and nose points are overwritten by the
   * video-mode ones.
   */
  method CombineVidImgLm478ToLm68<P>(img: seq<seq<P>>, vid: seq<seq<P>>) returns (combined: seq<seq<P>>)
    requires |img| == |vid|
    requires IndexedBy(img, Lm68) && IndexedBy(vid, Lm68)
    ensures |combined| == |img|
    ensures forall t :: 0 <= t < |img| ==>
              |combined[t]| == 68 &&
              forall i :: 0 <= i < 68 ==>
                combined[t][i] == if i < 36 then vid[t][Lm68[i]] else img[t][Lm68[i]]
    ensures img == vid ==> forall t :: 0 <= t < |img| ==> combined[t] == Gather(img[t], Lm68)
  {
    Lm68Table();
    RangeMembers(0, 17);
    RangeMembers(17, 27);
    RangeMembers(27, 36);
    combined := [];
    for t := 0 to |img|
      invariant |combined| == t
      invariant forall s :: 0 <= s < t ==>
                  |combined[s]| == 68 &&
                  forall i :: 0 <= i < 68 ==>
                    combined[s][i] == if i < 36 then vid[s][Lm68[i]] else img[s][Lm68[i]]
    {
      var imgLm68 := Gather(img[t], Lm68);
      var vidLm68 := Gather(vid[t], Lm68);
      var row := new P[68](i requires 0 <= i < 68 => imgLm68[i]);
      CopySlots(row, vidLm68, Yaw);
      CopySlots(row, vidLm68, Brow);
      CopySlots(row, vidLm68, Nose);
      combined := combined + [row[..]];
    }
  }

  /**
   * `combine_vid_img_lm478_to_lm478`: per frame, a copy of the video-mode
   * mesh whose mouth and eye points are overwritten by the image-mode ones.
   */
  method CombineVidImgLm478ToLm478<P>(img: seq<seq<P>>, vid: seq<seq<P>>) returns (combined: seq<seq<P>>)
    requires |img| == |vid|
    requires IndexedBy(img, Mouth) && IndexedBy(vid, Mouth)
    requires IndexedBy(img, Eye) && IndexedBy(vid, Eye)
    ensures |combined| == |vid|
    ensures forall t :: 0 <= t < |vid| ==>
              |combined[t]| == |vid[t]| &&
              forall k :: 0 <= k < |vid[t]| ==>
                combined[t][k] == if k in Mouth || k in Eye then img[t][k] else vid[t][k]
  {
    combined := [];
    for t := 0 to |vid|
      invariant |combined| == t
      invariant forall s :: 0 <= s < t ==>
                  |combined[s]| == |vid[s]| &&
                  forall k :: 0 <= k < |vid[s]| ==>
                    combined[s][k] == if k in Mouth || k in Eye then img[s][k] else vid[s][k]
    {
      var row := new P[|vid[t]|](k requires 0 <= k < |vid[t]| => vid[t][k]);
      CopySlots(row, img[t], Mouth);
      CopySlots(row, img[t], Eye);
      combined := combined + [row[..]];
    }
  }

  /**
   * The two combiners agree: splicing the 478-point meshes and then taking
   * the 68-point set gives, point for point, what the 68-point combiner
   * gives. Points 0-35 (jaw line, brows, nose) lie outside the mouth and eye
   * regions and stay video mode's; points 36-67 (eyes, lips) lie inside
   * them and are image mode's.
   */
  lemma SplicedMeshGivesLm68<P>(img: seq<P>, vid: seq<P>, spliced: seq<P>)
    requires |spliced| == |vid| && |img| == |vid|
    requires forall k :: 0 <= k < |vid| ==> spliced[k] == if k in Mouth || k in Eye then img[k] else vid[k]
    requires forall i :: 0 <= i < 68 ==> Lm68[i] < |vid|
    ensures |Gather(spliced, Lm68)| == 68
    ensures forall i :: 0 <= i < 68 ==>
              Gather(spliced, Lm68)[i] == if i < 36 then vid[Lm68[i]] else img[Lm68[i]]
  {
    Lm68Regions();
  }

  /** Which of the 68 points lie in the mouth and eye regions of the mesh. */
  lemma Lm68Regions()
    ensures |Lm68| == 68
    ensures forall i :: 0 <= i < 36 ==> Lm68[i] !in Mouth && Lm68[i] !in Eye
    ensures forall i :: 36 <= i < 68 ==> Lm68[i] in Mouth || Lm68[i] in Eye
  {
    Lm68Table();
    JawLineOutsideRegions();
    BrowsOutsideRegions();
    NoseOutsideRegions();
    EyesInEyeRegion();
    LipsInMouthRegion();
    var rest := Brows68 + Nose68 + Eyes68 + Lips68;
    assert Lm68 == JawLine68 + rest;
    forall i | 0 <= i < 68
      ensures i < 17 ==> Lm68[i] in JawLine68
      ensures 17 <= i < 27 ==> Lm68[i] in Brows68
      ensures 27 <= i < 36 ==> Lm68[i] in Nose68
      ensures 36 <= i < 48 ==> Lm68[i] in Eyes68
      ensures 48 <= i ==> Lm68[i] in Lips68
    {
      if i < 17 { assert Lm68[i] == JawLine68[i]; }
      else if i < 27 { assert Lm68[i] == Brows68[i - 17]; }
      else if i < 36 { assert Lm68[i] == Nose68[i - 27]; }
      else if i < 48 { assert Lm68[i] == Eyes68[i - 36]; }
      else { assert Lm68[i] == Lips68[i - 48]; }
    }
  }

  /** No entry of `a` equals an entry of `b`. */
  predicate Apart(a: seq<nat>, b: seq<nat>)
  {
    forall i, j :: 0 <= i < |a| && 0 <= j < |b| ==> a[i] != b[j]
  }

  /** Lists that are apart share no member. */
  lemma ApartShareNothing(a: seq<nat>, b: seq<nat>)
    requires Apart(a, b)
    ensures forall k :: k in a ==> k !in b
  {
    forall k | k in a ensures k !in b {
      var i :| 0 <= i < |a| && a[i] == k;
    }
  }

  /** A block apart from every block of the mouth and eye regions is in neither region. */
  lemma OutsideRegions(block: seq<nat>)
    requires Apart(block, InnerLip) && Apart(block, OuterLip)
    requires Apart(block, WithinMouth[..20]) && Apart(block, WithinMouth[20..])
    requires Apart(block, LeftEye) && Apart(block, RightEye)
    ensures forall k :: k in block ==> k !in Mouth && k !in Eye
  {
    ApartShareNothing(block, InnerLip);
    ApartShareNothing(block, OuterLip);
    ApartShareNothing(block, WithinMouth[..20]);
    ApartShareNothing(block, WithinMouth[20..]);
    ApartShareNothing(block, LeftEye);
    ApartShareNothing(block, RightEye);
    assert WithinMouth == WithinMouth[..20] + WithinMouth[20..];
  }

  /** No jaw-line landmark of the 68-point set is in the mouth or eye regions. */
  lemma JawLineOutsideRegions()
    ensures forall k :: k in JawLine68 ==> k !in Mouth && k !in Eye
  {
    JawLineApartFromMouth();
    JawLineApartFromWithinMouth();
    JawLineApartFromEyes();
    OutsideRegions(JawLine68);
  }

  lemma BrowsOutsideRegions()
    ensures forall k :: k in Brows68 ==> k !in Mouth && k !in Eye
  {
    BrowsApartFromMouth();
    BrowsApartFromWithinMouth();
    BrowsApartFromEyes();
    OutsideRegions(Brows68);
  }

  lemma NoseOutsideRegions()
    ensures forall k :: k in Nose68 ==> k !in Mouth && k !in Eye
  {
    NoseApartFromMouth();
    NoseApartFromWithinMouth();
    NoseApartFromEyes();
    OutsideRegions(Nose68);
  }

  // The 68-point blocks against each block of the two regions.

  lemma JawLineApartFromMouth()
    ensures Apart(JawLine68, InnerLip) && Apart(JawLine68, OuterLip)
  {
  }

  lemma JawLineApartFromWithinMouth()
    ensures Apart(JawLine68, WithinMouth[..20]) && Apart(JawLine68, WithinMouth[20..])
  {
  }

  lemma JawLineApartFromEyes()
    ensures Apart(JawLine68, LeftEye) && Apart(JawLine68, RightEye)
  {
  }

  lemma BrowsApartFromMouth()
    ensures Apart(Brows68, InnerLip) && Apart(Brows68, OuterLip)
  {
  }

  lemma BrowsApartFromWithinMouth()
    ensures Apart(Brows68, WithinMouth[..20]) && Apart(Brows68, WithinMouth[20..])
  {
  }

  lemma BrowsApartFromEyes()
    ensures Apart(Brows68, LeftEye) && Apart(Brows68, RightEye)
  {
  }

  lemma NoseApartFromMouth()
    ensures Apart(Nose68, InnerLip) && Apart(Nose68, OuterLip)
  {
  }

  lemma NoseApartFromWithinMouth()
    ensures Apart(Nose68, WithinMouth[..20]) && Apart(Nose68, WithinMouth[20..])
  {
  }

  lemma NoseApartFromEyes()
    ensures Apart(Nose68, LeftEye) && Apart(Nose68, RightEye)
  {
  }

  lemma EyesInEyeRegion()
    ensures forall k :: k in Eyes68 ==> k in Eye
  {
  }

  lemma LipsInMouthRegion()
    ensures forall k :: k in Lips68 ==> k in Mouth
  {
  }
}
