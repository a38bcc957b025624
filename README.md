# Face-swap index and geometry bookkeeping, in Dafny

This project models the index and geometry bookkeeping around a face-swap
pipeline built on OpenCV and MediaPipe. The pixel maths stays inside those
libraries and is not modelled. Two source files are modelled.

`utils/face_swap_utils.py`, the swap engine:

- **Landmark filter** (`LandmarkFilter`): a 68-point set loses 24 fixed indices.
- **Delaunay post-processing** (`Delaunay`): each vertex of the subdivision's triangle list is matched back to the input points it lies within less than one pixel of. A triangle is kept only when exactly three matches are found.
- **Per-triangle warp** (`TriangleWarp`): the destination frame is blended in place inside one bounding rectangle, as `old * (1 - mask) + warped * mask`.
- **`face_swap`** (`FaceSwap`): gathers the hull, recovers the triangles, warps every triangle onto a copy of the destination frame and computes the blend centre.
- **Landmark readers** (`PointFiles`): the points file and the JSON file.

`utils/face_landmarker.py`, the landmark remapper:

- **Index tables** (`LandmarkTables`): which of MediaPipe's 478 mesh landmarks form the 141-, 131- and 68-point sets and the eye and mouth regions.
- **Derived point sets** (`LandmarkRemap`): the 17-point half-face polygon, the 16-point "homo" set and the mask-outline shifts.
- **Combiners** (`LandmarkCombine`): splice video-mode and image-mode landmarks by index.

Two shared modules sit in `geometry.dfy`:

- `Geometry`: integer points, OpenCV rectangles and `cv2.boundingRect` on integer points. The rectangle is `(min, min, max - min + 1, max - min + 1)`, and an empty list gives `(0, 0, 0, 0)`.
- `IndexLists`: integer ranges and strictly increasing index lists.

How state is modelled:

- A frame is an `array2<int>` with one sample per pixel. The ghost `Snapshot` reads it as rows of samples.
- The methods that build lists by appending in a loop are methods with loops. Each is proved against a function that states the result.
- The in-place writes are writes to arrays:
  - the masked rectangle write of `warp_triangle`;
  - `half_pts[j]` in the mask-outline save;
  - the slice writes on the deep copies in the combiners.

Foreign calls are inputs:

- the convex-hull index list;
- the triangle list of `cv2.Subdiv2D`, given as a function of the rectangle and the points;
- the affine resampler (`getAffineTransform` with `warpAffine`);
- the triangle rasteriser (`fillConvexPoly`).

`face_swap` ends in one of three ways:

- an invalid landmark set gives the filter's error;
- an empty triangulation gives `Quit` (the program calls `quit()`);
- otherwise it gives `Clone`, which holds the warped frame, the blend centre and the hull polygon that `seamlessClone` receives.

The program writes several index lists twice with the same entries:

- the 141- and 131-point lists (blocks at `utils/face_landmarker.py:13-35`);
- the eye and lip lists (`:45-48`).

Each such block is written once here and shared. `index_withinmouth_from_lm478` lists landmark 72 twice. That is harmless, because a slice write with a repeated index writes the same value twice.

## Model

| member | source | states |
|---|---|---|
| `Geometry.BoundingRect` | utils/face_swap_utils.py:139-140 | `cv2.boundingRect` gives a rectangle of positive width and height exactly when the point list is non-empty |
| `Geometry.BoundingRectCovers` | utils/face_swap_utils.py:139-140 | the bounding rectangle of a non-empty point list has positive size, covers every point, and each of its four sides touches a point |
| `Geometry.BoundingRectMonotone` | utils/face_swap_utils.py:237 | the bounding rectangle of a sub-list (a triangle of the hull) lies inside the bounding rectangle of the list |
| `LandmarkFilter.RemoveSpecificElements` | utils/face_swap_utils.py:69-74 | fails with the length message exactly when the input does not have 68 items; otherwise returns 44 items, item `i` being the input item at `KeptIndices[i]` |
| `LandmarkFilter.KeepUnlistedSelects` | utils/face_swap_utils.py:74 | the comprehension over `enumerate` yields exactly the items at the unlisted indices, in index order |
| `LandmarkFilter.KeptBetweenMembers` | utils/face_swap_utils.py:74 | an index survives exactly when it is in range and not listed for removal, and the survivors are in increasing order |
| `LandmarkFilter.RemovedRanges` | utils/face_swap_utils.py:73 | the removal list is exactly index 0 with 16-26 and 36-47 |
| `LandmarkFilter.KeptIndicesAreComplement` | utils/face_swap_utils.py:73-74 | the 44 kept indices and the 24 removed ones split 0-67, and the kept ones are strictly increasing (relative order preserved) |
| `LandmarkFilter.KeptIndicesComputed` | utils/face_swap_utils.py:73-74 | the comprehension's survivors on 68 items are exactly 1-15, 27-35 and 48-67 |
| `LandmarkFilter.RemoveSpecificElementsKeeps` | utils/face_swap_utils.py:73-74 | an item of a 68-point set is in the output exactly when its index is not in the removal list |
| `Delaunay.RectContains` | utils/face_swap_utils.py:88-97 | true exactly when `x <= p.x <= x + w` and `y <= p.y <= y + h`, with all four edges inclusive |
| `Delaunay.RectContainsBoundingRect` | utils/face_swap_utils.py:88-97 | every point of a list passes the containment test against the list's bounding rectangle; the far corner passes the test though it is outside the pixel area |
| `Delaunay.MatchesSpec` | utils/face_swap_utils.py:127-129 | the matched indices of a vertex are exactly the valid point indices within less than 1.0 on both axes, each once, in increasing order |
| `Delaunay.CollectMatches` | utils/face_swap_utils.py:124-129 | the loops over vertices and points build the `index` list: the matches of each vertex in turn |
| `Delaunay.AllMatchesOfTriangle` | utils/face_swap_utils.py:124-129 | the `index` list is the matches of vertex 1, then vertex 2, then vertex 3 |
| `Delaunay.TriangleKeptIff` | utils/face_swap_utils.py:123-131 | a triangle yields a triple exactly when its three vertices pass the containment test and the three match counts add up to 3; the triple's indices are valid |
| `Delaunay.OneMatchPerVertex` | utils/face_swap_utils.py:126-131 | when each vertex matches exactly one point, the triangle is kept and its triple names those points vertex by vertex |
| `Delaunay.AmbiguousVertexDrops` | utils/face_swap_utils.py:126-131 | a vertex within tolerance of two points drops the triangle when every vertex matches something |
| `Delaunay.MatchCountIsPooled` | utils/face_swap_utils.py:126-131 | the count is over all three vertices together: two matches on one vertex and none on another still give a kept triple |
| `Delaunay.DelaunayIndicesInRange` | utils/face_swap_utils.py:114-133 | every index of every recovered triple is below the number of points |
| `Delaunay.KeptSourcesMatch` | utils/face_swap_utils.py:114-133 | the m-th recovered triple is what the triangle at the m-th kept position yields |
| `Delaunay.KeptSourcesOrder` | utils/face_swap_utils.py:114-133 | kept positions strictly increase, and every triangle not at a kept position yields nothing |
| `Delaunay.DelaunayOrigin` | utils/face_swap_utils.py:114-133 | each listed triangle contributes at most one triple, in list order, so there are at most as many triples as triangles |
| `Delaunay.CalculateDelaunayTriangles` | utils/face_swap_utils.py:100-134 | the nested loops return the recovered triples of the triangle list, each holding valid point indices |
| `TriangleWarp.Blend` | utils/face_swap_utils.py:164-170 | a zero mask keeps the old sample and a mask of one takes the warped sample |
| `TriangleWarp.LocalTriangleInPatch` | utils/face_swap_utils.py:139-150 | the offset triangle lies in the `w` by `h` patch of its bounding rectangle, touches its left and top sides, and adding the corner back gives the triangle |
| `TriangleWarp.WarpImageEffect` | utils/face_swap_utils.py:152-170 | the warp keeps the frame's shape, leaves every sample outside the destination rectangle unchanged, and inside it keeps the sample under a zero mask and takes the resampled one under a mask of one |
| `TriangleWarp.WarpRow` | utils/face_swap_utils.py:164-170 | one row of the destination rectangle takes the blend of its old samples with the resampled ones; every other sample of the frame is unchanged |
| `TriangleWarp.WarpRect` | utils/face_swap_utils.py:164-170 | every sample of the destination rectangle takes the blend of its old value with the resampled one; every sample outside it is unchanged |
| `TriangleWarp.BlendedIsWarped` | utils/face_swap_utils.py:137-170 | a frame blended inside the destination rectangle and unchanged outside it is the warped frame |
| `TriangleWarp.WarpTriangle` | utils/face_swap_utils.py:137-170 | the frame after the in-place rectangle write is the warped frame of the frame before |
| `FaceSwap.GatherHull` | utils/face_swap_utils.py:197-204 | both hulls have the index list's length, `hull1[i] = points1[hull_index[i]]` and `hull2[i] = points2[hull_index[i]]` |
| `FaceSwap.TruncHalf` | utils/face_swap_utils.py:239 | `int(n / 2)` is half of `n` truncated toward zero, for both signs |
| `FaceSwap.BlendCentre` | utils/face_swap_utils.py:237-239 | the centre of a rectangle of non-negative size lies between its top-left and bottom-right corners |
| `FaceSwap.BlendCentreInside` | utils/face_swap_utils.py:237-239 | the centre of a rectangle of positive size is one of its pixels, at the middle or just right of it (just below it) for an even size |
| `FaceSwap.TriangleRectInFrame` | utils/face_swap_utils.py:216-226 | a triangle of in-frame hull points has its bounding rectangle inside the frame, so every warp writes inside the frame |
| `FaceSwap.WarpAll` | utils/face_swap_utils.py:216-226 | warping the triangles in order keeps the frame's shape |
| `FaceSwap.WarpAllOutside` | utils/face_swap_utils.py:216-226 | a sample outside every destination triangle's rectangle keeps its value through the triangle loop |
| `FaceSwap.WarpAllWithinHullRect` | utils/face_swap_utils.py:216-237 | a sample outside the bounding rectangle of the destination hull keeps its value through the triangle loop |
| `FaceSwap.CopyFrame` | utils/face_swap_utils.py:190 | the working frame is a fresh copy with the same samples |
| `FaceSwap.WarpTriangles` | utils/face_swap_utils.py:216-226 | the in-place triangle loop leaves the frame equal to the triangles of `dt` warped in order |
| `FaceSwap.SwapHulls` | utils/face_swap_utils.py:206-239 | an empty triangulation quits with the frame untouched; otherwise every recovered triangle is warped into the frame in order and the clone gets the destination hull and the centre of its bounding rectangle |
| `FaceSwap.FaceSwap` | utils/face_swap_utils.py:189-242 | a landmark set without 68 points fails with the filter's message; an empty triangulation quits with the copy untouched; otherwise the copy holds every triangle warped, the polygon is the destination hull and the centre that of its bounding rectangle |
| `PointFiles.WordsSkipSpace` | utils/face_swap_utils.py:15 | leading whitespace adds no word to `line.split()` |
| `PointFiles.WordsOfSpaced` | utils/face_swap_utils.py:15 | `line.split()` gives back exactly the words a line is built from, in order, whatever non-empty whitespace separates them and whether or not whitespace ends the line |
| `PointFiles.WordsOfLine` | utils/face_swap_utils.py:15 | a line `x y\n` of two words splits into exactly those two words |
| `PointFiles.ParseInt` | utils/face_swap_utils.py:16 | `int(token)` succeeds exactly on an optional sign followed by at least one decimal digit, with the sign of the result following the token's |
| `PointFiles.ParseFormatInt` | utils/face_swap_utils.py:16 | reading an integer's decimal form gives the integer back |
| `PointFiles.ParseLine` | utils/face_swap_utils.py:15-16 | a line yields a point exactly when it has two words that are both integers; otherwise the unpack or `int` error, naming the word count or the bad word |
| `PointFiles.ParseFormatLine` | utils/face_swap_utils.py:13-16 | a line written as `x y` reads back as the point it was written from |
| `PointFiles.ReadPoints` | utils/face_swap_utils.py:7-17 | succeeds exactly when every line parses, giving one point per line in file order; otherwise fails with the error of the first bad line |
| `PointFiles.ReadWrittenPoints` | utils/face_swap_utils.py:7-17 | a points file written one `x y` line per point reads back as the same points |
| `PointFiles.ReadJsonData` | utils/face_swap_utils.py:20-44 | a non-empty result comes only from a document that is that list; a list document gives its items; load errors and non-list documents give the empty list |
| `LandmarkTables.Lm68Table` | utils/face_landmarker.py:38-42 | the 68-point table has 68 entries, all below 478 |
| `LandmarkTables.Lm141Table` | utils/face_landmarker.py:13-35 | 141 entries below 478, the iris points 468-477 at positions 128-137, and the 131-point table equal to the 141-point one without them |
| `LandmarkTables.RegionTables` | utils/face_landmarker.py:45-53 | the eye region has 32 mesh landmarks and the mouth region 80 |
| `LandmarkTables.UnmatchOnJawLine` | utils/face_landmarker.py:44 | every face-oval point listed for separate weighting is a jaw-line landmark of the 68-point set |
| `LandmarkTables.GroupsPartition` | utils/face_landmarker.py:55-59 | yaw, brow, nose, eye and mouth are consecutive ranges that concatenate to 0-67, each index in exactly one group |
| `LandmarkRemap.MvPts` | utils/face_landmarker.py:91-92 | the point moves by exactly `(x, y)`, and stays put only for the zero move |
| `LandmarkRemap.MvPtsInverse` | utils/face_landmarker.py:91-92 | moving a point is undone by the opposite move, moves compose, and a move keeps the point only when it is zero |
| `LandmarkRemap.ContourBlockPadding` | utils/face_landmarker.py:97-104 | the 13 contour points keep their rows, the left side moves right by the padding and the right side left by the same amount, the chin stays, and zero padding gives landmarks 2-14 |
| `LandmarkRemap.HalfFaceClosesSquare` | utils/face_landmarker.py:105-108 | the 17-point polygon closes with axis-aligned edges from landmark 14's row around the nose base back to landmark 2's row |
| `LandmarkRemap.HomolmSharesContour` | utils/face_landmarker.py:112-125 | the 16-point set starts with the half-face polygon's 13 contour points at padding 2 and ends with copies of landmarks 35, 29 and 31 |
| `LandmarkRemap.GetHalfFaceLandmarksList` | utils/face_landmarker.py:95-109 | the loop over the 68 indices builds the 17-point half-face polygon |
| `LandmarkRemap.Convert68ToHomolm` | utils/face_landmarker.py:112-125 | the loop builds the 16-point "homo" set |
| `LandmarkRemap.MaskShift` | utils/face_landmarker.py:155-175 | exactly the 17 points of the polygon are shifted, by at most 5 horizontally and 3 vertically |
| `LandmarkRemap.MaskShiftTable` | utils/face_landmarker.py:155-175 | every one of the 17 points is shifted, and the shifts are mirror-symmetric between the two sides of the face |
| `LandmarkRemap.MaskOutlineMovesEveryPoint` | utils/face_landmarker.py:151-176 | every mask-outline point differs from the half-face point it comes from |
| `LandmarkRemap.SaveHalfFaceMaskLandmarks` | utils/face_landmarker.py:151-176 | per frame, the half-face polygon with each point replaced in place by its shifted copy |
| `LandmarkRemap.SaveHalfFaceLandmarks` | utils/face_landmarker.py:139-145 | per frame, the half-face polygon at the default padding |
| `LandmarkRemap.SaveHomolm` | utils/face_landmarker.py:128-134 | per frame, the 16-point "homo" set |
| `LandmarkCombine.GatherCompose` | utils/face_landmarker.py:267-268 | indexing by one list and then by another is indexing once by the composed list |
| `LandmarkCombine.GatherAll` | utils/face_landmarker.py:267-268 | indexing by every position in order gives the frame back |
| `LandmarkCombine.CopySlots` | utils/face_landmarker.py:270-272 | a slice write sets exactly the listed positions from the source and leaves the others as they were |
| `LandmarkCombine.CombineVidImgLm478ToLm68` | utils/face_landmarker.py:266-273 | point `i` of each frame is video mode's `Lm68[i]` for `i < 36` and image mode's for the rest; equal inputs give the plain 68-point set |
| `LandmarkCombine.CombineVidImgLm478ToLm478` | utils/face_landmarker.py:275-279 | each frame keeps the video frame's length, with image mode's point at every mouth or eye index and video mode's elsewhere |
| `LandmarkCombine.SplicedMeshGivesLm68` | utils/face_landmarker.py:266-279 | the two combiners agree: taking the 68-point set of the spliced mesh gives video mode's points 0-35 and image mode's points 36-67, as the 68-point combiner does |
| `LandmarkCombine.Lm68Regions` | utils/face_landmarker.py:38-53 | the 68-point landmarks 0-35 lie outside the mouth and eye regions, and landmarks 36-67 inside them |
| `LandmarkCombine.JawLineOutsideRegions` | utils/face_landmarker.py:38-53 | no jaw-line landmark of the 68-point set is in the mouth or eye regions |

## Left out

- The OpenCV calls are inputs or are left out: `convexHull`, `Subdiv2D`, `getAffineTransform`/`warpAffine`, `fillConvexPoly` and `seamlessClone`. `FaceSwap.FaceSwap` returns what `seamlessClone` would receive instead of its output.
- The MediaPipe detector and `MediapipeLandmarker` are left out, as are the scaling of landmarks by frame width and height and the stale-variable fallback when detection fails. They depend on the external detector and on floating point.
- Floating point is left out:
  - coordinates are integers;
  - the anti-aliased float mask is a 0/1 mask given by the rasteriser input;
  - the `uint8` casts are not modelled;
  - `round` is the identity on integers.
- `TriangleWarp.WarpTriangle`: a frame has one sample per pixel; the three identical colour channels are not modelled.
- `TriangleWarp.WarpTriangle`: requires the destination rectangle to lie inside the frame. Numpy would clip a slice that leaves the frame and the broadcast would then fail; that path is not modelled. `FaceSwap.FaceSwap` always meets the precondition.
- `FaceSwap.FaceSwap`: requires every destination hull point inside the frame. `Subdiv2D.insert` raises otherwise, and the raise is not modelled.
- `FaceSwap.FaceSwap`: requires hull indices below 44, the size of the filtered set that `convexHull` indexes.
- `FaceSwap.FaceSwap`: the hull mask of lines 229-235 is `fillConvexPoly` on the hull polygon; the model returns the polygon.
- `FaceSwap.FaceSwap`: `quit()` ends the process. The model returns `Quit` with the unwarped copy.
- `Delaunay.CalculateDelaunayTriangles`: the subdivision's triangle list is an input function of the rectangle and the points.
- `PointFiles.ReadPoints`: opening the file and splitting it into lines is I/O. The lines are given, each still ending in its newline.
- `PointFiles.ParseInt`: does not accept the underscores between digits or the non-ASCII decimal digits that Python's `int` also accepts.
- `PointFiles.ReadJsonData`: JSON decoding and the printed messages are left out. The loaded document, or the kind of load error, is the input.
- The JSON writes of the `save_*` functions are left out. The model returns the data they would write.
- `save_full_face_landmarks` is left out. It only rounds every point, which is the identity on integers.
- `LandmarkRemap.GetHalfFaceLandmarksList`: requires at least 36 landmarks. With fewer, Python's `IndexError` at `landmark[i]` or `landmark[35]` is not modelled.
- `LandmarkRemap.Convert68ToHomolm`: requires at least 36 landmarks. With fewer, the `IndexError` at `landmarks[i]` or `landmarks[35]` is not modelled.
- `LandmarkRemap.SaveHalfFaceLandmarks`: requires at least 36 landmarks in every frame. The `IndexError` of a shorter frame is not modelled.
- `LandmarkRemap.SaveHalfFaceMaskLandmarks`: requires at least 36 landmarks in every frame. The `IndexError` of a shorter frame is not modelled.
- `LandmarkRemap.SaveHomolm`: requires at least 36 landmarks in every frame. The `IndexError` of a shorter frame is not modelled.
- `LandmarkCombine.CombineVidImgLm478ToLm68`: requires every frame to hold each index of the 68-point table. Numpy's `IndexError` on a shorter frame is not modelled.
- `LandmarkCombine.CombineVidImgLm478ToLm478`: requires every frame to hold each mouth and eye index. Numpy's `IndexError` on a shorter frame is not modelled.
- The combiners take frames of equal count. Numpy's broadcasting of a single-frame input is left out.
- Video I/O is left out: `read_video_to_frames` in both files (with its 1300×900 crop and colour flip) and all of `utils/video_util.py`.
- `resize_with_aspect_ratio` is left out. It resizes to the image's own size through `cv2.resize`.
- `apply_affine_transform` is the resampler input.
