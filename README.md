# Triangle–triangle intersection, modelled in Dafny

This project models the core of a mesh-boolean tool's triangle–triangle intersection. It has two parts.

- `intpoint.dfy` (module `IntPoint`) models the integer point library:
  - `Point3` has 32-bit components and `Point3d` has 64-bit components.
  - The arithmetic and comparison operators are modelled. C++ truncating division is modelled as `TruncDiv`.
  - `max`, `vSize2`, `testLength`, `cross` and `dot` are modelled.
  - The compound assignment operators are methods of the small mutable cells `Point3Cell` and `Point3dCell`.
  - Every C++ integer operation that can overflow carries a precondition that it stays inside its 32- or 64-bit range.
- `triangle_intersect.dfy` (module `TriangleIntersect`) models Möller's triangle–triangle test as the code implements it:
  - the sign classification of a triangle's corners against the other triangle's plane;
  - the classifier `TrianglePlaneIntersection::computeIntersectingEdges`, both as the pure function `Classify` and as a class whose methods are proved against it;
  - `divide`;
  - the main `intersect`: its early exits, the choice of the anchor point O, the ordering of each triangle's two crossing points along the intersection line, the overlap of the two intervals, the collapse to a touching point, and the melding of new points onto nearby input vertices.

The floating-point geometry of `intersect` is taken as input, as a `LineGeometry`. It holds:
- whether the normalised normals are equal or opposite;
- the signed distances of each triangle's corners to the other plane;
- the four line parameters x11, x12, x21 and x22;
- the rounded locations written into new points.

Everything the code decides from these values is modelled. The values themselves are not computed.

A triangle `Face` has corners 0, 1 and 2, which are a, b and c. Edge i runs from corner i to corner i+1 mod 3: edge0 is a–b, edge1 is b–c and edge2 is c–a.

## Model

| member | source | states |
|---|---|---|
| IntPoint.TruncDiv | src/utils/intpoint.h:52 | Integer division rounds toward zero: \|q·b\| ≤ \|a\| < \|q·b\| + \|b\|, and q·b has the sign of a unless it is zero. |
| IntPoint.Point3.Plus | src/utils/intpoint.h:50 | `operator+`: subtracting the same point again gives back the original. |
| IntPoint.Point3.Minus | src/utils/intpoint.h:51 | `operator-`: the difference is the zero vector exactly when the two points are equal. |
| IntPoint.Point3.DivBy | src/utils/intpoint.h:52 | `operator/`: each component q of the result satisfies \|q·i\| ≤ \|component\| < \|q·i\| + \|i\|, and q·i is zero or has the component's sign, i.e. it is divided with rounding toward zero. |
| IntPoint.Point3.Times | src/utils/intpoint.h:53 | `operator*`: for a nonzero factor, dividing the product by it again gives back the original. |
| IntPoint.Point3.TestLength | src/utils/intpoint.h:87-96 | When `testLength(len)` holds, len ≥ 0 and every component lies in [−len, len]. |
| IntPoint.Point3.Dot | src/utils/intpoint.h:117-120 | `dot` is symmetric in its operands and never negative for a vector with itself. |
| IntPoint.ScaleLeft | src/utils/intpoint.h:124-126 | `i * p`: for a nonzero factor, dividing the product by it again gives back p. |
| IntPoint.Point3.Equals | src/utils/intpoint.h:60 | `operator==` holds exactly when the two points are equal. |
| IntPoint.Point3.NotEquals | src/utils/intpoint.h:61 | `operator!=` is the exact complement of `operator==`, and holds exactly when the points differ. |
| IntPoint.Point3.Max | src/utils/intpoint.h:80-85 | The result is one of the three components and is at least each of them. |
| IntPoint.Point3.VSize2 | src/utils/intpoint.h:98-101 | The squared length is non-negative. It is zero exactly for the zero vector. |
| IntPoint.TestLengthMeansWithin | src/utils/intpoint.h:87-96 | `testLength(len)` holds exactly when len ≥ 0 and x²+y²+z² ≤ len². The per-component pre-checks only reject early and never change the answer. |
| IntPoint.Point3.Cross | src/utils/intpoint.h:109-115 | The cross product is orthogonal to both operands. |
| IntPoint.CrossAntiCommutes | src/utils/intpoint.h:109-115 | Swapping the operands of `cross` negates every component. |
| IntPoint.CrossDotIsZero | src/utils/intpoint.h:109-120 | The `dot` of either operand with their `cross` is zero whenever that dot stays in 32 bits. |
| IntPoint.PlusMinusRoundTrip | src/utils/intpoint.h:50-51 | (p + q) − q == p. |
| IntPoint.TimesDivRoundTrip | src/utils/intpoint.h:52-53 | `i * p` equals `p * i`, and (p · i) / i == p for nonzero i. |
| IntPoint.Point3Cell.constructor | src/utils/intpoint.h:47 | A cell holds the point it was built from. |
| IntPoint.Point3Cell.AddAssign | src/utils/intpoint.h:55 | `+=` leaves the cell holding old value + p. |
| IntPoint.Point3Cell.SubAssign | src/utils/intpoint.h:56 | `-=` leaves the cell holding old value − p. |
| IntPoint.Point3Cell.MulAssign | src/utils/intpoint.h:57 | `*=` leaves the cell holding old value · c. |
| IntPoint.Point3Cell.DivAssign | src/utils/intpoint.h:58 | `/=` leaves the cell holding old value / c, rounded toward zero. |
| IntPoint.Point3d.FromPoint3 | src/utils/intpoint.h:135-136 | Up-casting a `Point3` gives a `Point3d` that fits 32 bits, and down-casting it returns the original point. |
| IntPoint.Point3d.DownCast | src/utils/intpoint.h:136 | `downCast()`: up-casting its result gives back the 64-bit point, so the narrowing loses nothing. |
| IntPoint.Point3d.Plus | src/utils/intpoint.h:138 | `operator+`: subtracting the same point again gives back the original. |
| IntPoint.Point3d.Minus | src/utils/intpoint.h:139 | `operator-`: the difference is the zero vector exactly when the two points are equal. |
| IntPoint.Point3d.DivBy | src/utils/intpoint.h:140 | `operator/`: each component q of the result satisfies \|q·i\| ≤ \|component\| < \|q·i\| + \|i\|, and q·i is zero or has the component's sign, i.e. it is divided with rounding toward zero. |
| IntPoint.Point3d.Times | src/utils/intpoint.h:141 | `operator*`: for a nonzero factor, dividing the product by it again gives back the original. |
| IntPoint.ScaleLeft64 | src/utils/intpoint.h:208-210 | `i * p` in 64 bits: for a nonzero factor, dividing the product by it again gives back p. |
| IntPoint.Point3d.Equals | src/utils/intpoint.h:148 | `operator==` holds exactly when the two points are equal. |
| IntPoint.Point3d.NotEquals | src/utils/intpoint.h:149 | `operator!=` is the exact complement of `operator==`. |
| IntPoint.Point3d.Max | src/utils/intpoint.h:161-166 | The result is one of the three components and is at least each of them. |
| IntPoint.Point3d.Cross | src/utils/intpoint.h:190-196 | The 64-bit cross product is orthogonal to both operands. |
| IntPoint.PlusMinusRoundTrip64 | src/utils/intpoint.h:138-139 | (p + q) − q == p in 64 bits. |
| IntPoint.TimesDivRoundTrip64 | src/utils/intpoint.h:140-141 | `i * p` equals `p * i`, and (p · i) / i == p for nonzero i, in 64 bits. |
| IntPoint.CrossAntiCommutes64 | src/utils/intpoint.h:190-196 | Swapping the operands of the 64-bit `cross` negates every component. |
| IntPoint.Point3dCell.constructor | src/utils/intpoint.h:134 | A cell holds the point it was built from. |
| IntPoint.Point3dCell.AddAssign | src/utils/intpoint.h:143 | `+=` leaves the cell holding old value + p. |
| IntPoint.Point3dCell.SubAssign | src/utils/intpoint.h:144 | `-=` leaves the cell holding old value − p. |
| IntPoint.Point3dCell.MulAssign | src/utils/intpoint.h:145 | `*=` leaves the cell holding old value · c. |
| IntPoint.Point3dCell.DivAssign | src/utils/intpoint.h:146 | `/=` leaves the cell holding old value / c, rounded toward zero. |
| TriangleIntersect.Sign | src/triangleIntersect.cpp:105 | The sign is 1, −1 or 0 exactly when the distance is positive, negative or zero. |
| TriangleIntersect.LoneCorner | src/triangleIntersect.cpp:436-450 | Some corner's sign differs from the two others, which share theirs, exactly when the signs are neither all equal nor all distinct. The dispatch picks that corner. |
| TriangleIntersect.ZeroCorner | src/triangleIntersect.cpp:450-478 | With three distinct signs, the corner it picks is on the plane and its two neighbours are not. |
| TriangleIntersect.Classify | src/triangleIntersect.cpp:378-491 | A classification is correct exactly when both crossing points are set. Otherwise the type is coplanar, non-touching planes or touching point. Faces in range give crossing points in range. |
| TriangleIntersect.TrianglePlaneIntersection.constructor | src/triangleIntersect.cpp:374 | A fresh classifier state is unclassified: no lines, no anchor, not correct. |
| TriangleIntersect.TrianglePlaneIntersection.ComputeIntersectingEdgesInner | src/triangleIntersect.cpp:405-433 | It finishes exactly when the pair's sign is nonzero and the other corner's is zero, and then sets only the touching-point type. A zero pair sign sets the edge's two vertices, the anchor, the touched edge and the direction. Two nonzero signs set two new points on the edges at the other corner, with their pre-images. |
| TriangleIntersect.TrianglePlaneIntersection.ProcessOnPlaneVertex | src/triangleIntersect.cpp:452-461 | It sets the on-plane vertex as the first point and the anchor. It sets a new point on the opposite edge with the given pre-image, and the direction from the next corner's sign. Nothing else changes. |
| TriangleIntersect.TrianglePlaneIntersection.ComputeIntersectingEdges | src/triangleIntersect.cpp:378-491 | From the unclassified state, the new state is exactly `Classify` of the three signs. |
| TriangleIntersect.GetIntersectingEdges | src/triangleIntersect.cpp:371-377 | It returns a fresh classifier whose state is `Classify` of the signs. |
| TriangleIntersect.ClassifyAllSame | src/triangleIntersect.cpp:382-398 | With equal signs nothing is found. The type is non-touching planes for nonzero signs and coplanar for zero. |
| TriangleIntersect.ClassifyEdgeInPlane | src/triangleIntersect.cpp:407-415 | With two corners on the plane, the points are that edge's two vertices. The anchor is its second vertex and the touched edge is that edge. The direction is set when the third corner is below. |
| TriangleIntersect.ClassifyTouchingPoint | src/triangleIntersect.cpp:418-423 | With one corner on the plane and the two others on the same side, the result is a touching point with no lines. |
| TriangleIntersect.ClassifyCrossing | src/triangleIntersect.cpp:424-430 | With one corner strictly opposite the two others, the two edges at that corner each get a new point, with pre-images (prev, lone) and (lone, next). There is no anchor and no touched edge. |
| TriangleIntersect.ClassifyOnPlaneVertex | src/triangleIntersect.cpp:450-478 | With three distinct signs, exactly one corner is on the plane. It is the first point and the anchor, and the opposite edge holds the second, new point. |
| TriangleIntersect.ClassifyCorrectIff | src/triangleIntersect.cpp:480-489 | A classification is correct exactly when the signs are not all equal and no single on-plane corner has its two neighbours on the same side. |
| TriangleIntersect.AnchorIsOnPlane | src/triangleIntersect.cpp:405-461 | An anchor, when set, is the position of a corner whose sign is zero. |
| TriangleIntersect.ClassifyPreimagesSpanEdges | src/triangleIntersect.cpp:424-474 | Every new point's pre-image corners are the ends of its edge, except the second line's when corner c is the one on the plane. |
| TriangleIntersect.ThirdCornerOnPlaneMissesEdge | src/triangleIntersect.cpp:472-475 | For signs (+, −, 0), the second point is bound to edge a–b but its pre-image is (c, a), which does not span that edge. |
| TriangleIntersect.ClassifyIntended | src/triangleIntersect.cpp:464-475 | The corrected classification: every new point's pre-image spans its edge. Apart from that pre-image, it agrees with `Classify` everywhere, and unless corner c is the one on the plane of a three-sign split it is `Classify` exactly. |
| TriangleIntersect.LargestAxis | src/triangleIntersect.cpp:348-356 | The chosen axis has the largest square among the three components. Ties go to the lower axis. |
| TriangleIntersect.Divide | src/triangleIntersect.cpp:345-360 | The quotient times b's chosen component gives back a's component on that axis. |
| TriangleIntersect.DivideRecoversScale | src/triangleIntersect.cpp:345 | When a is t·b, `divide(a, b)` returns t, which is its documented assumption. |
| TriangleIntersect.WithLocation | src/triangleIntersect.cpp:223-252 | A new point gets the given location and keeps its edge. A vertex point, and the line's pre-image corners, are unchanged. |
| TriangleIntersect.Located | src/triangleIntersect.cpp:220-256 | Each new point of line1 and line2 gets its location (loc1, loc2) and keeps its edge. Vertex points, pre-images, the anchor, the type, the flags, the touched edge and which points exist are unchanged. In-range locations keep the points in range. |
| TriangleIntersect.LocateCrossings | src/triangleIntersect.cpp:220-256 | Writing the locations into a classifier record leaves exactly `Located` of its old state: new points moved to their locations, everything else unchanged. |
| TriangleIntersect.CrossingSpan | src/triangleIntersect.cpp:270-283 | A triangle's two crossing points, with their parameters, in ascending order. The result is a permutation of the two, and a tie keeps the classifier's order. |
| TriangleIntersect.OrderCrossings | src/triangleIntersect.cpp:270-283 | It returns min and max of the parameters. When the first is larger it swaps the two lines and flips the inner direction, and nothing else changes. |
| TriangleIntersect.Overlap | src/triangleIntersect.cpp:285-296 | There is no overlap exactly when the intervals are disjoint. Otherwise it runs from the larger start to the smaller end, each taken from one of the inputs, and ties go to the second triangle. |
| TriangleIntersect.Near | src/triangleIntersect.cpp:304-335 | `testLength(MELD_DISTANCE)` of the difference: near points have a non-negative meld distance and differ by at most it along every axis. |
| TriangleIntersect.NearMeansWithin | src/triangleIntersect.cpp:304-335 | Two points are near exactly when the meld distance is non-negative and their exact squared distance is at most its square. |
| TriangleIntersect.Collapses | src/triangleIntersect.cpp:304-317 | A collapse needs both ends to be the same vertex. A segment with a new point at either end never collapses. |
| TriangleIntersect.MeldCandidates | src/triangleIntersect.cpp:321-326 | The six input vertices, in cascade order, all in range. |
| TriangleIntersect.FirstNear | src/triangleIntersect.cpp:319-336 | The index of the first candidate within the meld distance: none before it is near, and it is near unless it is past the end. |
| TriangleIntersect.Meld | src/triangleIntersect.cpp:319-336 | A vertex point is kept. The result stays in range. |
| TriangleIntersect.MeldPicksFirstNear | src/triangleIntersect.cpp:319-336 | A new point becomes the first input vertex (fh1's, then fh2's) within the meld distance, or stays when none is. |
| TriangleIntersect.MeldIdempotent | src/triangleIntersect.cpp:319-336 | Melding a melded point changes nothing. |
| TriangleIntersect.SegmentOf | src/triangleIntersect.cpp:285-336 | Given the overlap of the two spans, the result is non-touching exactly when there is no overlap; otherwise it is a touching point or a line segment, and only a segment has endpoints. |
| TriangleIntersect.MeldOverlap | src/triangleIntersect.cpp:285-336 | The tail of `intersect` on two sorted spans (overlap test, choice of the later start and earlier end, touching-point collapse, melding) returns exactly `SegmentOf` of their `Overlap`. |
| TriangleIntersect.SegmentOfEnds | src/triangleIntersect.cpp:294-336 | A segment's ends are the overlap's low and high points, each melded. |
| TriangleIntersect.SegmentSpec | src/triangleIntersect.cpp:285-336 | After both classifications succeed, the result is non-touching, touching point or line segment, and only a segment has endpoints. |
| TriangleIntersect.IntersectSpec | src/triangleIntersect.cpp:59-341 | Only a line segment has endpoints. A segment requires non-parallel planes, and neither triangle lies wholly on one side of, or in, the other's plane. |
| TriangleIntersect.Intersect | src/triangleIntersect.cpp:59-341 | `intersect` returns exactly `IntersectSpec`: early exits, classification, ordering, overlap, collapse and melding. |
| TriangleIntersect.ClipAndMeld | src/triangleIntersect.cpp:220-336 | Locating, ordering, overlapping, collapsing and melding return exactly `SegmentSpec` of the two classifications. |
| TriangleIntersect.IntersectEarlyExits | src/triangleIntersect.cpp:123-144 | Parallel normals give coplanar exactly when corner a of the first triangle is on the other plane, and parallel otherwise. Without them, the result is non-touching planes exactly when either triangle's three signs are equal, including all three zero. |
| TriangleIntersect.IntersectClassifierDecides | src/triangleIntersect.cpp:149-153 | A failed classification of the first triangle, then of the second, decides the result, and its type is touching point. |
| TriangleIntersect.ClassifyNotCorrect | src/triangleIntersect.cpp:418-423 | Past the all-equal exit, a classification fails only as a touching point. |
| TriangleIntersect.IntersectNonTouchingIff | src/triangleIntersect.cpp:285-289 | With both classifications correct, the result is non-touching exactly when the two parameter intervals are disjoint. |
| TriangleIntersect.IntersectCollapseIff | src/triangleIntersect.cpp:304-317 | With both classifications correct and overlapping intervals, the result is a touching point exactly when the overlap's two ends are the same vertex within the meld distance, and a segment otherwise. Two close new points stay a segment. |
| TriangleIntersect.IntersectSegmentFlags | src/triangleIntersect.cpp:294-302 | A segment's inner directions are the classifiers', flipped for a swapped triangle. Its touched edges are the classifiers'. |
| TriangleIntersect.OverlapSymmetric | src/triangleIntersect.cpp:285-296 | When the spans share neither end, their overlap does not depend on which triangle comes first. |
| TriangleIntersect.KindSymmetric | src/triangleIntersect.cpp:59-341 | With non-parallel planes and intervals that share neither end, exchanging the two triangles (distances, line parameters and locations) leaves the kind of intersection unchanged. |
| TriangleIntersect.IntersectSegmentEnds | src/triangleIntersect.cpp:294-336 | A segment runs from the crossing point at the later interval start to the one at the earlier interval end, each melded. The start is never beyond the end. |
| TriangleIntersect.ChooseAnchor | src/triangleIntersect.cpp:174-185 | The caller's point wins. Without it, the first triangle's anchor wins over the second's. It is absent only when all three are absent. |
| TriangleIntersect.AnchorLiesOnBothPlanes | src/triangleIntersect.cpp:174-185 | Without a caller's point, a chosen anchor is a corner of one triangle with zero distance to the other plane. |

## Left out

- The floating-point geometry of `intersect` (src/triangleIntersect.cpp:69-121, 157-212) is inputs to `Intersect`, not computed. This covers the normals, d1/d2, the distance functions dp1/dp2, n3, the line projections pL, i1 and i2, and the rounding of the locations. Floating point is outside this model, so no property ties the parameters x11–x22 to actual triangle positions.
- ChooseAnchor: the analytic anchor computed from the two plane equations (src/triangleIntersect.cpp:179-184) is represented as None, because it is floating-point geometry.
- Divide: requires the chosen component of b to be nonzero, rather than deriving that from b being a nonzero vector. Float division by zero is not modelled.
- The same-mesh warning, all debug tracing, and the `TRIANGLE_INTERSECT_DEBUG_*` macros are left out because they only print.
- The convenience overload `intersect(fh1, fh2)` is left out: it only passes no point.
- The `resizeNormal` lambda is left out because it is never called.
- `vSize` (a floating-point square root), the stream operators `<<`, the commented-out 2D point code and the deprecated `Point3d::dot` (src/utils/intpoint.h:199-203) are left out. They involve floating point or output, or are disabled.
- IntPoint: 32- and 64-bit wrap-around is not modelled. Every operation requires its result to fit, and no C++ overflow behaviour is represented.
- Intersect: requires every face position and every rounded location in [−2^30, 2^30) (`IntersectInRange`), which is stronger than the differences at src/triangleIntersect.cpp:304 and 321-335 merely not overflowing. Meshes with coordinates beyond that half range are not covered. The same bound applies to ClipAndMeld, MeldOverlap, SegmentOf, SegmentSpec and IntersectSpec.
- KindSymmetric: holds only for non-parallel planes and intervals that share neither end, because `intersect` itself is not symmetric in its two triangles. A tie at either end of the overlap takes the second triangle's point (src/triangleIntersect.cpp:295-296). Melding tries the first triangle's vertices before the second's (src/triangleIntersect.cpp:321-335). The parallel exit reads only corner a of the first triangle to decide between coplanar and parallel (src/triangleIntersect.cpp:125). The endpoints, flags and touched edges are not claimed symmetric.
- IntPoint.Point3d.DownCast: requires the components to fit in 32 bits instead of modelling the truncating narrowing.
- The compound assignment operators return a reference to the point. The model's methods return nothing, and chaining is not represented.
- Half-edge mesh internals (handles, `p()`, `v0()`, `next()`) are reduced to a `Face` of three vertex references, three positions and three edge references. `shared_ptr` and `boost::optional` become values and `Option`.
- The header `triangleIntersect.h` is not part of this model. Its field defaults are taken from how the constructor and classifier use them: not correct, no lines, no anchor.
- The `MELD_DISTANCE` constant is a parameter, `meldDistance`, because its value is defined outside these files.
- The effect of the finding below on the parameter x12 (src/triangleIntersect.cpp:231) is not modelled, since the parameters are inputs.

## Findings

| source | as written | input that shows it | evidently intended | confidence | as-written member | corrected member |
|---|---|---|---|---|---|---|
| src/triangleIntersect.cpp:474 | When corner c is the one on the plane, `processOnPlaneVertex` gets a and c as prev/next while the new point is bound to edge0 (a–b). The second line's pre-image is (c, a), whose end c is on the plane, so the interpolation lands on c rather than on edge a–b. | Signs sa > 0, sb < 0, sc == 0 (a face whose edge0 and edge2 differ). | Pass b and a as prev/next, as the two other cases do, so the pre-image is (a, b), the ends of edge0. | not executed | TriangleIntersect.ThirdCornerOnPlaneMissesEdge | TriangleIntersect.ClassifyIntended |

`Intersect` does not read the pre-images, because the line parameters are its inputs. So its results are the same under `Classify` and under `ClassifyIntended`: the two differ only in that pre-image.
