/** The triangle-triangle intersector of the mesh-boolean pipeline, after
    Tomas Moller's "A Fast Triangle-Triangle Intersection Test".

    Modelled here is its discrete decision logic: the classification of one
    triangle against the other triangle's plane, the early exits, the ordering
    of the four crossing points along the planes' intersection line, the
    overlap of the two triangles' spans, the collapse to a touching point, the
    melding of new points onto input vertices, and the axis choice of
    `divide`. The floating-point geometry that feeds this logic (normals,
    signed distances, the line direction, the line parameters of the crossing
    points and their rounded locations) is taken as input. */
module TriangleIntersect {
  import opened IntPoint

  datatype Option<+T> = None | Some(value: T)

  datatype IntersectionType =
    | Coplanar
    | Parallel
    | NonTouchingPlanes
    | NonTouching
    | TouchingPoint
    | LineSegment

  /** One of a triangle's three corners (a, b, c of the source). */
  type Corner = i: int | 0 <= i < 3

  function Next(i: Corner): Corner { (i + 1) % 3 }
  function Prev(i: Corner): Corner { (i + 2) % 3 }

  /** Non-owning references into the mesh's vertex and edge tables. */
  datatype VertexRef = VertexRef(index: nat)
  datatype EdgeRef = EdgeRef(index: nat)

  /** A face of the half-edge mesh: its three vertices with their positions
      and its three edges. Edge i runs from corner i to corner Next(i), so its
      `v0()` is vertex i and its `v1()` is vertex Next(i), and the edge that
      follows it (`next()`) is edge Next(i). */
  datatype Face = Face(
    v0: VertexRef, v1: VertexRef, v2: VertexRef,
    p0: Point3, p1: Point3, p2: Point3,
    e0: EdgeRef, e1: EdgeRef, e2: EdgeRef)
  {
    function V(i: Corner): VertexRef { if i == 0 then v0 else if i == 1 then v1 else v2 }
    function P(i: Corner): Point3 { if i == 0 then p0 else if i == 1 then p1 else p2 }
    function E(i: Corner): EdgeRef { if i == 0 then e0 else if i == 1 then e1 else e2 }

    /** Positions small enough that the difference of any two fits in 32 bits. */
    predicate InRange() { InHalfRange(p0) && InHalfRange(p1) && InHalfRange(p2) }
  }

  /** A point of an intersection segment: an existing mesh vertex, or a new
      point inside a mesh edge. */
  datatype IntersectionPoint =
    | VertexPoint(vertex: VertexRef, pos: Point3)
    | NewPoint(location: Point3, edge: EdgeRef)
  {
    /** `p()` */
    function Position(): Point3
    {
      match this
      case VertexPoint(_, pos) => pos
      case NewPoint(location, _) => location
    }
  }

  function VertexAt(fh: Face, i: Corner): IntersectionPoint
  {
    VertexPoint(fh.V(i), fh.P(i))
  }

  /** The placeholder location of a new point before its position on the
      line is known. */
  const Origin := Point3(0, 0, 0)

  // ---------------------------------------------------------------------------
  // Signs of the signed distances to the other plane
  // ---------------------------------------------------------------------------

  type SignValue = s: int | -1 <= s <= 1

  /** The `sign` lambda: `(0 < a) - (a < 0)`. */
  function Sign(a: real): (s: SignValue)
    ensures s == 1 <==> a > 0.0
    ensures s == -1 <==> a < 0.0
    ensures s == 0 <==> a == 0.0
  {
    (if 0.0 < a then 1 else 0) - (if a < 0.0 then 1 else 0)
  }

  /** The signs of a triangle's corners a, b, c against the other plane. */
  datatype Signs = Signs(a: SignValue, b: SignValue, c: SignValue)
  {
    function At(i: Corner): SignValue { if i == 0 then a else if i == 1 then b else c }
    predicate AllSame() { a == b && b == c }
    predicate AllDistinct() { a != b && b != c && c != a }
  }

  /** When exactly two signs agree: the corner whose sign differs. */
  function LoneCorner(s: Signs): (k: Option<Corner>)
    ensures k.Some? <==> !s.AllSame() && !s.AllDistinct()
    ensures k.Some? ==> s.At(Next(k.value)) == s.At(Prev(k.value)) != s.At(k.value)
  {
    if s.AllSame() || s.AllDistinct() then None
    else if s.a == s.b then Some(2)
    else if s.b == s.c then Some(0)
    else Some(1)
  }

  /** When all three signs differ, exactly one of them is zero. */
  function ZeroCorner(s: Signs): (m: Corner)
    requires s.AllDistinct()
    ensures s.At(m) == 0 && s.At(Next(m)) != 0 && s.At(Prev(m)) != 0
  {
    if s.a == 0 then 0 else if s.b == 0 then 1 else 2
  }

  // ---------------------------------------------------------------------------
  // Plane-crossing classifier (TrianglePlaneIntersection)
  // ---------------------------------------------------------------------------

  /** One candidate crossing point: the corners whose positions are
      interpolated to find it (absent for a vertex point) and the point. */
  datatype Line = Line(from: Option<Corner>, to: Option<Corner>, intersection: Option<IntersectionPoint>)

  const NoLine := Line(None, None, None)

  /** The fields of a `TrianglePlaneIntersection` record. */
  datatype PlaneCrossing = PlaneCrossing(
    line1: Line,
    line2: Line,
    anchor: Option<Point3>,
    innerDirection: bool,
    touchedEdge: Option<EdgeRef>,
    isCorrect: bool,
    kind: IntersectionType)

  /** A record before classification. The initial intersection type is
      declared in triangleIntersect.h, which is not part of this model; it is
      never read while `isCorrect` holds. */
  const Unclassified := PlaneCrossing(NoLine, NoLine, None, false, None, false, LineSegment)

  /** The pre-image of the second crossing point when corner m lies on the
      plane, as the source passes it: for m = 2 the call hands corners a and c
      over as prev and next, so the pre-image is (c, a). */
  function OnPlanePreimage(m: Corner): (Corner, Corner)
  {
    if m == 2 then (2, 0) else (Next(m), Prev(m))
  }

  /** What `computeIntersectingEdges` leaves in a fresh record, stated by the
      lone corner (two signs agree) or the zero corner (all signs differ). */
  function Classify(s: Signs, fh: Face): (r: PlaneCrossing)
    ensures r.isCorrect <==> r.line1.intersection.Some? && r.line2.intersection.Some?
    ensures !r.isCorrect ==> r.kind == Coplanar || r.kind == NonTouchingPlanes || r.kind == TouchingPoint
    ensures fh.InRange() ==> LinesInRange(r)
  {
    if s.AllSame() then
      Unclassified.(kind := if s.a == 0 then Coplanar else NonTouchingPlanes)
    else if s.AllDistinct() then
      var m := ZeroCorner(s);
      var (f, t) := OnPlanePreimage(m);
      Unclassified.(
        line1 := Line(None, None, Some(VertexAt(fh, m))),
        line2 := Line(Some(f), Some(t), Some(NewPoint(Origin, fh.E(Next(m))))),
        anchor := Some(fh.P(m)),
        innerDirection := s.At(Next(m)) > 0,
        isCorrect := true)
    else
      var k := LoneCorner(s).value;
      if s.At(Next(k)) == 0 then
        // edge Next(k), from corner Next(k) to corner Prev(k), lies in the plane
        Unclassified.(
          line1 := Line(None, None, Some(VertexAt(fh, Next(k)))),
          line2 := Line(None, None, Some(VertexAt(fh, Prev(k)))),
          anchor := Some(fh.P(Prev(k))),
          innerDirection := s.At(k) < 0,
          touchedEdge := Some(fh.E(Next(k))),
          isCorrect := true)
      else if s.At(k) == 0 then
        Unclassified.(kind := TouchingPoint)
      else
        // the two edges at corner k cross the plane
        Unclassified.(
          line1 := Line(Some(Prev(k)), Some(k), Some(NewPoint(Origin, fh.E(Prev(k))))),
          line2 := Line(Some(k), Some(Next(k)), Some(NewPoint(Origin, fh.E(k)))),
          innerDirection := s.At(k) > 0,
          isCorrect := true)
  }

  /** The record of the classification of one triangle against the other
      triangle's plane, filled in step by step. */
  class TrianglePlaneIntersection
  {
    var line1: Line
    var line2: Line
    var anchor: Option<Point3>
    var innerDirection: bool
    var touchedEdge: Option<EdgeRef>
    var isCorrect: bool
    var kind: IntersectionType

    function Snapshot(): PlaneCrossing
      reads this
    {
      PlaneCrossing(line1, line2, anchor, innerDirection, touchedEdge, isCorrect, kind)
    }

    constructor ()
      ensures Snapshot() == Unclassified
    {
      line1, line2 := NoLine, NoLine;
      anchor := None;
      innerDirection := false;
      touchedEdge := None;
      isCorrect := false;
      kind := LineSegment;
    }

    /** The `computeIntersectingEdgesInner` lambda: the corners at both ends of
        `sameSideEdge` share the sign `signEither`, and `other` (the lone
        corner, with sign `signOther`) lies between `prev` and `next`.
        Returns whether the classification is finished. */
    method ComputeIntersectingEdgesInner(
      signEither: SignValue, signOther: SignValue, sameSideEdge: Corner,
      other: Corner, prev: Corner, next: Corner, fh: Face)
      returns (finished: bool)
      modifies this
      ensures finished <==> signEither != 0 && signOther == 0
      ensures signEither == 0 ==> Snapshot() == old(Snapshot()).(
        line1 := old(line1).(intersection := Some(VertexAt(fh, sameSideEdge))),
        line2 := old(line2).(intersection := Some(VertexAt(fh, Next(sameSideEdge)))),
        anchor := Some(fh.P(Next(sameSideEdge))),
        innerDirection := signOther < 0,
        touchedEdge := Some(fh.E(sameSideEdge)))
      ensures finished ==> Snapshot() == old(Snapshot()).(kind := TouchingPoint)
      ensures signEither != 0 && signOther != 0 ==> Snapshot() == old(Snapshot()).(
        line1 := Line(Some(prev), Some(other), Some(NewPoint(Origin, fh.E(Next(sameSideEdge))))),
        line2 := Line(Some(other), Some(next), Some(NewPoint(Origin, fh.E(Next(Next(sameSideEdge)))))),
        innerDirection := signOther > 0)
    {
      if signEither == 0 {
        // the whole edge lies in the plane: its two vertices are the crossing points
        line1 := line1.(intersection := Some(VertexAt(fh, sameSideEdge)));
        line2 := line2.(intersection := Some(VertexAt(fh, Next(sameSideEdge))));
        anchor := Some(line2.intersection.value.Position());
        innerDirection := signOther < 0;
        touchedEdge := Some(fh.E(sameSideEdge));
      } else {
        if signOther == 0 {
          // only the lone vertex touches the plane
          kind := TouchingPoint;
          return true;
        }
        line1 := Line(Some(prev), Some(other), Some(NewPoint(Origin, fh.E(Next(sameSideEdge)))));
        line2 := Line(Some(other), Some(next), Some(NewPoint(Origin, fh.E(Next(Next(sameSideEdge))))));
        innerDirection := signOther > 0;
      }
      return false;
    }

    /** The `processOnPlaneVertex` lambda: corner `middle` lies on the plane
        and the edge `otherEdge` opposite it crosses the plane. */
    method ProcessOnPlaneVertex(
      middle: Corner, prev: Corner, next: Corner, signNext: SignValue, otherEdge: Corner, fh: Face)
      modifies this
      ensures Snapshot() == old(Snapshot()).(
        line1 := old(line1).(intersection := Some(VertexAt(fh, middle))),
        line2 := Line(Some(next), Some(prev), Some(NewPoint(Origin, fh.E(otherEdge)))),
        anchor := Some(fh.P(middle)),
        innerDirection := signNext > 0)
    {
      line1 := line1.(intersection := Some(VertexAt(fh, middle)));
      anchor := Some(line1.intersection.value.Position());
      line2 := Line(Some(next), Some(prev), Some(NewPoint(Origin, fh.E(otherEdge))));
      innerDirection := signNext > 0;
    }

    /** `computeIntersectingEdges` on a fresh record, for corner signs
        `sa`, `sb`, `sc`. */
    method ComputeIntersectingEdges(sa: SignValue, sb: SignValue, sc: SignValue, fh: Face)
      requires Snapshot() == Unclassified
      modifies this
      ensures Snapshot() == Classify(Signs(sa, sb, sc), fh)
    {
      isCorrect := false;
      if sa == sb && sb == sc {
        // the plane is not crossed, or the triangle lies in it
        if sa > 0 {
          kind := NonTouchingPlanes;
        } else if sa < 0 {
          kind := NonTouchingPlanes;
        } else {
          kind := Coplanar;
        }
        return;
      }
      if sa == sb {
        var finished := ComputeIntersectingEdgesInner(sa, sc, 0, 2, 1, 0, fh);
        if finished { return; }
      } else if sb == sc {
        var finished := ComputeIntersectingEdgesInner(sb, sa, 1, 0, 2, 1, fh);
        if finished { return; }
      } else if sc == sa {
        var finished := ComputeIntersectingEdgesInner(sc, sb, 2, 1, 0, 2, fh);
        if finished { return; }
      } else {
        // all signs differ, so one vertex lies on the plane
        if sa == 0 {
          ProcessOnPlaneVertex(0, 2, 1, sb, 1, fh);
        } else if sb == 0 {
          ProcessOnPlaneVertex(1, 0, 2, sc, 2, fh);
        } else if sc == 0 {
          ProcessOnPlaneVertex(2, 0, 2, sa, 0, fh);
        }
      }
      if line1.intersection.Some? && line2.intersection.Some? {
        isCorrect := true;
      }
    }
  }

  /** `getIntersectingEdges`: a fresh record, classified. */
  method GetIntersectingEdges(sa: SignValue, sb: SignValue, sc: SignValue, fh: Face)
    returns (t: TrianglePlaneIntersection)
    ensures fresh(t) && t.Snapshot() == Classify(Signs(sa, sb, sc), fh)
  {
    t := new TrianglePlaneIntersection();
    t.ComputeIntersectingEdges(sa, sb, sc, fh);
  }

  /** All three signs equal: nothing is found, and the type says whether the
      triangle lies in the plane or entirely on one side of it. */
  lemma ClassifyAllSame(s: Signs, fh: Face)
    requires s.AllSame()
    ensures var r := Classify(s, fh);
      && !r.isCorrect
      && r.kind == (if s.a != 0 then NonTouchingPlanes else Coplanar)
      && r.line1 == NoLine && r.line2 == NoLine
  {
  }

  /** The two corners other than k are on the plane: the edge between them is
      the crossing, given by its own two vertices. */
  lemma ClassifyEdgeInPlane(s: Signs, fh: Face, k: Corner)
    requires s.At(Next(k)) == 0 && s.At(Prev(k)) == 0 && s.At(k) != 0
    ensures var r := Classify(s, fh);
      && r.isCorrect
      && r.line1 == Line(None, None, Some(VertexAt(fh, Next(k))))
      && r.line2 == Line(None, None, Some(VertexAt(fh, Next(Next(k)))))
      && r.anchor == Some(fh.P(Next(Next(k))))
      && r.touchedEdge == Some(fh.E(Next(k)))
      && r.innerDirection == (s.At(k) < 0)
  {
  }

  /** The two corners other than k share a nonzero sign and k is on the
      plane: the triangle only touches the plane in one vertex. */
  lemma ClassifyTouchingPoint(s: Signs, fh: Face, k: Corner)
    requires s.At(Next(k)) == s.At(Prev(k)) != 0 && s.At(k) == 0
    ensures var r := Classify(s, fh);
      !r.isCorrect && r.kind == TouchingPoint && r.line1 == NoLine && r.line2 == NoLine
  {
  }

  /** Corner k lies strictly on the other side than the two others: the two
      edges at k each hold a new crossing point, interpolated between their
      ends. */
  lemma ClassifyCrossing(s: Signs, fh: Face, k: Corner)
    requires s.At(Next(k)) == s.At(Prev(k)) != 0 && s.At(k) == -s.At(Next(k))
    ensures var r := Classify(s, fh);
      && r.isCorrect
      && r.line1 == Line(Some(Prev(k)), Some(k), Some(NewPoint(Origin, fh.E(Prev(k)))))
      && r.line2 == Line(Some(k), Some(Next(k)), Some(NewPoint(Origin, fh.E(k))))
      && r.anchor.None? && r.touchedEdge.None?
      && r.innerDirection == (s.At(k) > 0)
  {
    assert LoneCorner(s) == Some(k) by {
      assert s.At(0) == s.a && s.At(1) == s.b && s.At(2) == s.c;
    }
  }

  /** All three signs differ: exactly one corner m is on the plane. It is the
      first crossing point and the anchor; the edge opposite it holds the
      second. */
  lemma ClassifyOnPlaneVertex(s: Signs, fh: Face)
    requires s.AllDistinct()
    ensures exists m: Corner :: s.At(m) == 0
    ensures forall m: Corner, n: Corner :: s.At(m) == 0 && s.At(n) == 0 ==> m == n
    ensures var r := Classify(s, fh);
      var m := ZeroCorner(s);
      && r.isCorrect
      && r.line1 == Line(None, None, Some(VertexAt(fh, m)))
      && r.line2.intersection == Some(NewPoint(Origin, fh.E(Next(m))))
      && r.anchor == Some(fh.P(m))
      && r.touchedEdge.None?
      && r.innerDirection == (s.At(Next(m)) > 0)
  {
    assert s.At(ZeroCorner(s)) == 0;
  }

  /** A classification succeeds exactly when the triangle really crosses the
      plane or has an edge in it. */
  lemma ClassifyCorrectIff(s: Signs, fh: Face)
    ensures Classify(s, fh).isCorrect <==>
      !s.AllSame() && !(exists k: Corner :: s.At(Next(k)) == s.At(Prev(k)) != 0 && s.At(k) == 0)
  {
    if !s.AllSame() && !s.AllDistinct() {
      var k := LoneCorner(s).value;
      if s.At(k) == 0 && s.At(Next(k)) != 0 {
        assert Classify(s, fh).kind == TouchingPoint;
      }
    }
  }

  /** An anchor is only ever the position of a corner lying on the plane. */
  lemma AnchorIsOnPlane(s: Signs, fh: Face)
    ensures var r := Classify(s, fh);
      r.anchor.Some? ==> exists i: Corner :: s.At(i) == 0 && r.anchor.value == fh.P(i)
  {
    var r := Classify(s, fh);
    if r.anchor.Some? {
      if s.AllDistinct() {
        assert s.At(ZeroCorner(s)) == 0;
      } else {
        var k := LoneCorner(s).value;
        assert s.At(Prev(k)) == 0;
      }
    }
  }

  /** Whether a line's pre-image corners are the two ends of the edge its new
      point is bound to. */
  predicate PreimageSpansEdge(l: Line, fh: Face)
  {
    l.from.Some? && l.to.Some? && l.intersection.Some? && l.intersection.value.NewPoint? ==>
      var f, t, e := l.from.value, l.to.value, l.intersection.value.edge;
      (t == Next(f) && e == fh.E(f)) || (f == Next(t) && e == fh.E(t))
  }

  /** As written, every pre-image spans the edge of its new point, except the
      second one when the third corner is the one on the plane. */
  lemma ClassifyPreimagesSpanEdges(s: Signs, fh: Face)
    ensures var r := Classify(s, fh);
      && PreimageSpansEdge(r.line1, fh)
      && (!(s.AllDistinct() && s.c == 0) ==> PreimageSpansEdge(r.line2, fh))
  {
  }

  /** For signs (+, -, 0) the new point is bound to edge a-b while its
      pre-image is (c, a): interpolating along c-a, whose end c is on the
      plane, lands on c itself rather than on edge a-b. */
  lemma ThirdCornerOnPlaneMissesEdge(fh: Face)
    requires fh.E(0) != fh.E(2)
    ensures var r := Classify(Signs(1, -1, 0), fh);
      && r.isCorrect
      && r.line2 == Line(Some(2), Some(0), Some(NewPoint(Origin, fh.E(0))))
      && !PreimageSpansEdge(r.line2, fh)
  {
  }

  /** The evidently intended classification: as written, except that the
      third-corner-on-plane case hands over corners b and a, the ends of the
      edge a-b the new point is bound to. */
  function ClassifyIntended(s: Signs, fh: Face): (r: PlaneCrossing)
    ensures PreimageSpansEdge(r.line1, fh) && PreimageSpansEdge(r.line2, fh)
    ensures r.(line2 := r.line2.(from := None, to := None))
         == Classify(s, fh).(line2 := Classify(s, fh).line2.(from := None, to := None))
    ensures !(s.AllDistinct() && s.c == 0) ==> r == Classify(s, fh)
  {
    ClassifyPreimagesSpanEdges(s, fh);
    var r := Classify(s, fh);
    if s.AllDistinct() && ZeroCorner(s) == 2 then r.(line2 := r.line2.(from := Some(0), to := Some(1))) else r
  }

  // ---------------------------------------------------------------------------
  // divide: the line parameter of a point from its displacement
  // ---------------------------------------------------------------------------

  /** A floating-point vector, with exact real components. */
  datatype FPoint = FPoint(x: real, y: real, z: real)
  {
    function At(i: Axis): real { if i == 0 then x else if i == 1 then y else z }
  }

  type Axis = i: int | 0 <= i < 3

  /** The axis along which `b` has the largest square; ties go to x, then y. */
  function LargestAxis(b: FPoint): (k: Axis)
    ensures forall j: Axis :: b.At(j) * b.At(j) <= b.At(k) * b.At(k)
    ensures forall j: Axis :: j < k ==> b.At(j) * b.At(j) < b.At(k) * b.At(k)
  {
    var xx, yy, zz := b.x * b.x, b.y * b.y, b.z * b.z;
    if xx >= yy && xx >= zz then 0
    else if yy >= zz then 1
    else 2
  }

  /** `divide(a, b)`: the quotient of `a` and `b` along the axis where `b` is
      largest. The caller's `b` is the nonzero direction of the line, so that
      component is nonzero. */
  function Divide(a: FPoint, b: FPoint): (r: real)
    requires b.At(LargestAxis(b)) != 0.0
    ensures r * b.At(LargestAxis(b)) == a.At(LargestAxis(b))
  {
    var k := LargestAxis(b);
    QuotientTimesDivisor(a.At(k), b.At(k));
    if k == 0 then a.x / b.x
    else if k == 1 then a.y / b.y
    else a.z / b.z
  }

  /** For `a` a multiple of `b`, as the source assumes, `divide` recovers the
      factor. */
  lemma DivideRecoversScale(a: FPoint, b: FPoint, t: real)
    requires b.At(LargestAxis(b)) != 0.0
    requires a == FPoint(t * b.x, t * b.y, t * b.z)
    ensures Divide(a, b) == t
  {
    var k := LargestAxis(b);
    assert Divide(a, b) == a.At(k) / b.At(k);
    QuotientOfScaledAxis(a, b, t, k);
  }

  lemma QuotientTimesDivisor(n: real, d: real)
    requires d != 0.0
    ensures (n / d) * d == n
  {
  }

  /** Along any axis where `b` is nonzero, a multiple of `b` divided by `b`
      gives back the factor. */
  lemma QuotientOfScaledAxis(a: FPoint, b: FPoint, t: real, k: Axis)
    requires b.At(k) != 0.0
    requires a == FPoint(t * b.x, t * b.y, t * b.z)
    ensures a.At(k) / b.At(k) == t
  {
    var d := b.At(k);
    assert a.At(k) == t * d;
    QuotientTimesDivisor(a.At(k), d);
    ProductCancels(a.At(k) / d, t, d);
  }

  lemma ProductCancels(r: real, t: real, d: real)
    requires d != 0.0 && r * d == t * d
    ensures r == t
  {
    assert (r - t) * d == 0.0;
  }

  // ---------------------------------------------------------------------------
  // intersect
  // ---------------------------------------------------------------------------

  /** Signed distances of a triangle's corners a, b, c to the other plane. */
  datatype Distances = Distances(a: real, b: real, c: real)

  function SignsOf(d: Distances): Signs
  {
    Signs(Sign(d.a), Sign(d.b), Sign(d.c))
  }

  /** What the floating-point geometry of `intersect` yields, taken as given:
      whether the normalised normals are equal or opposite, the signed
      distances of each triangle's corners to the other plane, the line
      parameters of the four crossing points in the classifier's order, and
      the rounded locations written into new points. */
  datatype LineGeometry = LineGeometry(
    parallelNormals: bool,
    dist1: Distances,
    dist2: Distances,
    x11: real, x12: real, x21: real, x22: real,
    loc11: Point3, loc12: Point3, loc21: Point3, loc22: Point3)

  /** The result of `intersect`. */
  datatype TriangleIntersection = TriangleIntersection(
    from: Option<IntersectionPoint>,
    to: Option<IntersectionPoint>,
    innerDirection1: bool,
    innerDirection2: bool,
    touchedEdge1: Option<EdgeRef>,
    touchedEdge2: Option<EdgeRef>,
    kind: IntersectionType)

  function NoSegment(kind: IntersectionType): TriangleIntersection
  {
    TriangleIntersection(None, None, false, false, None, None, kind)
  }

  /** The line with a new point's location set; a vertex point is kept. */
  function WithLocation(l: Line, loc: Point3): (r: Line)
    ensures r.from == l.from && r.to == l.to
    ensures r.intersection.Some? == l.intersection.Some?
    ensures l.intersection.Some? && l.intersection.value.NewPoint? ==>
      r.intersection == Some(NewPoint(loc, l.intersection.value.edge))
    ensures l.intersection.Some? && l.intersection.value.VertexPoint? ==> r.intersection == l.intersection
  {
    match l.intersection
    case Some(NewPoint(_, e)) => l.(intersection := Some(NewPoint(loc, e)))
    case _ => l
  }

  /** Whether the crossing points found so far lie in the half range. */
  predicate LinesInRange(c: PlaneCrossing)
  {
    && (c.line1.intersection.Some? ==> InHalfRange(c.line1.intersection.value.Position()))
    && (c.line2.intersection.Some? ==> InHalfRange(c.line2.intersection.value.Position()))
  }

  /** The classification with its new points moved to their locations on
      the line; which points exist, and where vertex points are, is kept. */
  function Located(c: PlaneCrossing, loc1: Point3, loc2: Point3): (r: PlaneCrossing)
    ensures r.isCorrect == c.isCorrect && r.innerDirection == c.innerDirection && r.touchedEdge == c.touchedEdge
    ensures r.anchor == c.anchor && r.kind == c.kind
    ensures r.line1.from == c.line1.from && r.line1.to == c.line1.to
    ensures r.line2.from == c.line2.from && r.line2.to == c.line2.to
    ensures c.line1.intersection.Some? && c.line1.intersection.value.NewPoint? ==>
      r.line1.intersection == Some(NewPoint(loc1, c.line1.intersection.value.edge))
    ensures c.line2.intersection.Some? && c.line2.intersection.value.NewPoint? ==>
      r.line2.intersection == Some(NewPoint(loc2, c.line2.intersection.value.edge))
    ensures c.line1.intersection.Some? && c.line1.intersection.value.VertexPoint? ==>
      r.line1.intersection == c.line1.intersection
    ensures c.line2.intersection.Some? && c.line2.intersection.value.VertexPoint? ==>
      r.line2.intersection == c.line2.intersection
    ensures r.line1.intersection.Some? == c.line1.intersection.Some?
    ensures r.line2.intersection.Some? == c.line2.intersection.Some?
    ensures LinesInRange(c) && InHalfRange(loc1) && InHalfRange(loc2) ==> LinesInRange(r)
  {
    c.(line1 := WithLocation(c.line1, loc1), line2 := WithLocation(c.line2, loc2))
  }

  /** A crossing point together with its parameter along the line. */
  datatype Endpoint = Endpoint(point: IntersectionPoint, x: real)

  datatype Span = Span(low: Endpoint, high: Endpoint)

  /** Whether both ends of a span lie in the half range. */
  predicate SpanInRange(s: Span)
  {
    InHalfRange(s.low.point.Position()) && InHalfRange(s.high.point.Position())
  }

  /** A triangle's two crossing points ordered along the line: a sorted
      permutation of the classifier's two, which keeps their order on a tie. */
  function CrossingSpan(c: PlaneCrossing, x1: real, x2: real): (s: Span)
    requires c.line1.intersection.Some? && c.line2.intersection.Some?
    ensures s.low.x <= s.high.x
    ensures var e1, e2 := Endpoint(c.line1.intersection.value, x1), Endpoint(c.line2.intersection.value, x2);
      (s.low == e1 && s.high == e2) || (s.low == e2 && s.high == e1)
    ensures x1 == x2 ==> s.low.point == c.line1.intersection.value
    ensures LinesInRange(c) ==> SpanInRange(s)
  {
    var e1, e2 := Endpoint(c.line1.intersection.value, x1), Endpoint(c.line2.intersection.value, x2);
    if x1 > x2 then Span(e2, e1) else Span(e1, e2)
  }

  function MaxReal(a: real, b: real): real { if a >= b then a else b }
  function MinReal(a: real, b: real): real { if a <= b then a else b }

  /** The part of the line covered by both spans: absent when they are
      disjoint, else from the later start to the earlier end. On a tie the
      second triangle's endpoint is taken. */
  function Overlap(s1: Span, s2: Span): (r: Option<Span>)
    requires s1.low.x <= s1.high.x && s2.low.x <= s2.high.x
    ensures r.None? <==> s1.high.x < s2.low.x || s2.high.x < s1.low.x
    ensures r.Some? ==>
      && r.value.low.x == MaxReal(s1.low.x, s2.low.x)
      && r.value.high.x == MinReal(s1.high.x, s2.high.x)
      && r.value.low.x <= r.value.high.x
      && (r.value.low == s1.low || r.value.low == s2.low)
      && (r.value.high == s1.high || r.value.high == s2.high)
      && (s1.low.x == s2.low.x ==> r.value.low == s2.low)
      && (s1.high.x == s2.high.x ==> r.value.high == s2.high)
    ensures r.Some? && SpanInRange(s1) && SpanInRange(s2) ==> SpanInRange(r.value)
  {
    if s1.high.x < s2.low.x || s2.high.x < s1.low.x then None
    else
      Some(Span(
        if s1.low.x > s2.low.x then s1.low else s2.low,
        if s1.high.x < s2.high.x then s1.high else s2.high))
  }

  predicate PointInRange(p: IntersectionPoint) { InHalfRange(p.Position()) }

  /** Whether two points are within `len` of each other (`testLength` of
      their difference): near points differ by at most `len` along every
      axis. */
  function Near(p: IntersectionPoint, q: IntersectionPoint, len: Int32): (b: bool)
    requires PointInRange(p) && PointInRange(q) && IsInt32(len * len)
    ensures var d := p.Position().Minus(q.Position());
      b ==> 0 <= len && -len <= d.x <= len && -len <= d.y <= len && -len <= d.z <= len
  {
    p.Position().Minus(q.Position()).TestLength(len)
  }

  /** `Near` is a Euclidean test: the exact squared distance of the two
      points is at most `len * len`. */
  lemma NearMeansWithin(p: IntersectionPoint, q: IntersectionPoint, len: Int32)
    requires PointInRange(p) && PointInRange(q) && IsInt32(len * len)
    ensures var d := p.Position().Minus(q.Position());
      Near(p, q, len) <==> 0 <= len && d.x * d.x + d.y * d.y + d.z * d.z <= len * len
  {
    TestLengthMeansWithin(p.Position().Minus(q.Position()), len);
  }

  /** The segment degenerates to one vertex: both ends are the same vertex
      and lie within `len`. A segment with a new point at either end never
      collapses, however short. */
  function Collapses(from: IntersectionPoint, to: IntersectionPoint, len: Int32): (b: bool)
    requires PointInRange(from) && PointInRange(to) && IsInt32(len * len)
    ensures b ==> from.VertexPoint? && to.VertexPoint? && from.vertex == to.vertex && 0 <= len
    ensures from.NewPoint? || to.NewPoint? ==> !b
  {
    Near(from, to, len) && from.VertexPoint? && to.VertexPoint? && from.vertex == to.vertex
  }

  /** The six input vertices in the order the melding cascade tries them. */
  function MeldCandidates(fh1: Face, fh2: Face): (c: seq<IntersectionPoint>)
    requires fh1.InRange() && fh2.InRange()
    ensures |c| == 6
    ensures forall i | 0 <= i < 6 :: c[i].VertexPoint? && PointInRange(c[i])
  {
    [VertexAt(fh1, 0), VertexAt(fh1, 1), VertexAt(fh1, 2),
     VertexAt(fh2, 0), VertexAt(fh2, 1), VertexAt(fh2, 2)]
  }

  /** The index of the first candidate within `len` of `p`, or |c| when
      there is none. */
  function FirstNear(p: IntersectionPoint, c: seq<IntersectionPoint>, len: Int32): (i: nat)
    requires PointInRange(p) && IsInt32(len * len)
    requires forall j | 0 <= j < |c| :: PointInRange(c[j])
    ensures i <= |c|
    ensures forall j | 0 <= j < i :: !Near(p, c[j], len)
    ensures i < |c| ==> Near(p, c[i], len)
  {
    if c == [] then 0
    else if Near(p, c[0], len) then 0
    else 1 + FirstNear(p, c[1..], len)
  }

  /** Melding: the cascade that tries the input vertices of fh1, then of
      fh2, in corner order, and moves a new point onto the first one within
      `len` of it. */
  function Meld(p: IntersectionPoint, fh1: Face, fh2: Face, len: Int32): (q: IntersectionPoint)
    requires PointInRange(p) && fh1.InRange() && fh2.InRange() && IsInt32(len * len)
    ensures PointInRange(q)
    ensures p.VertexPoint? ==> q == p
  {
    if p.VertexPoint? then p
    else
      var c := MeldCandidates(fh1, fh2);
      var i := FirstNear(p, c, len);
      if i < 6 then c[i] else p
  }

  /** A new point melds onto the first input vertex within `len` of it, and
      stays where it is when none is. */
  lemma MeldPicksFirstNear(p: IntersectionPoint, fh1: Face, fh2: Face, len: Int32)
    requires PointInRange(p) && p.NewPoint? && fh1.InRange() && fh2.InRange() && IsInt32(len * len)
    ensures var q, c := Meld(p, fh1, fh2, len), MeldCandidates(fh1, fh2);
      || (q == p && forall i | 0 <= i < 6 :: !Near(p, c[i], len))
      || (exists i | 0 <= i < 6 :: q == c[i] && Near(p, c[i], len) && forall j | 0 <= j < i :: !Near(p, c[j], len))
  {
    var c := MeldCandidates(fh1, fh2);
    var i := FirstNear(p, c, len);
    if i < 6 {
      assert Meld(p, fh1, fh2, len) == c[i];
    }
  }

  /** Whether `intersect` gets past its early exits to the classifier. */
  predicate Classifiable(g: LineGeometry)
  {
    !g.parallelNormals && !SignsOf(g.dist1).AllSame() && !SignsOf(g.dist2).AllSame()
  }

  /** Orders one triangle's crossing points: when the first parameter is the
      larger, the parameters and the two lines swap and the inner-direction
      flag flips. */
  method OrderCrossings(t: TrianglePlaneIntersection, x1: real, x2: real) returns (lo: real, hi: real)
    modifies t
    ensures lo == MinReal(x1, x2) && hi == MaxReal(x1, x2)
    ensures t.Snapshot() == if x1 > x2
      then old(t.Snapshot()).(line1 := old(t.line2), line2 := old(t.line1), innerDirection := !old(t.innerDirection))
      else old(t.Snapshot())
  {
    lo, hi := x1, x2;
    if lo > hi {
      lo, hi := hi, lo;
      t.line1, t.line2 := t.line2, t.line1;
      t.innerDirection := !t.innerDirection;
    }
  }

  /** The faces, the rounded locations and the melding distance are small
      enough for the integer arithmetic of collapsing and melding. */
  predicate IntersectInRange(fh1: Face, fh2: Face, g: LineGeometry, meldDistance: Int32)
  {
    && fh1.InRange() && fh2.InRange()
    && InHalfRange(g.loc11) && InHalfRange(g.loc12) && InHalfRange(g.loc21) && InHalfRange(g.loc22)
    && IsInt32(meldDistance * meldDistance)
  }

  /** Whether a classification found two crossing points in the half range. */
  predicate Crosses(k: PlaneCrossing)
  {
    k.isCorrect && k.line1.intersection.Some? && k.line2.intersection.Some? && LinesInRange(k)
  }

  /** What `intersect` returns once the overlap `seg` of the two spans is
      known: nothing when they are disjoint, a touching point when both ends
      are the same input vertex and near each other, otherwise the segment
      with its ends melded onto input vertices. The flags say on which side
      of each crossing line the other triangle lies and which edge each
      classification touched. */
  function SegmentOf(seg: Option<Span>, dir1: bool, dir2: bool, edge1: Option<EdgeRef>, edge2: Option<EdgeRef>,
                     fh1: Face, fh2: Face, meldDistance: Int32): (r: TriangleIntersection)
    requires seg.Some? ==> SpanInRange(seg.value)
    requires fh1.InRange() && fh2.InRange() && IsInt32(meldDistance * meldDistance)
    ensures r.from.Some? <==> r.kind == LineSegment
    ensures r.to.Some? <==> r.kind == LineSegment
    ensures r.kind == NonTouching <==> seg.None?
    ensures r.kind == NonTouching || r.kind == TouchingPoint || r.kind == LineSegment
  {
    if seg.None? then NoSegment(NonTouching)
    else
      var from, to := seg.value.low.point, seg.value.high.point;
      if Collapses(from, to, meldDistance) then NoSegment(TouchingPoint)
      else
        TriangleIntersection(
          Some(Meld(from, fh1, fh2, meldDistance)), Some(Meld(to, fh1, fh2, meldDistance)),
          dir1, dir2, edge1, edge2, LineSegment)
  }

  /** What `intersect` returns once both classifications found their two
      crossing points: the overlap of the two spans along the line,
      collapsed to a touching point or melded onto input vertices. */
  function SegmentSpec(k1: PlaneCrossing, k2: PlaneCrossing, fh1: Face, fh2: Face, g: LineGeometry, meldDistance: Int32): (r: TriangleIntersection)
    requires IntersectInRange(fh1, fh2, g, meldDistance) && Crosses(k1) && Crosses(k2)
    ensures r.from.Some? <==> r.kind == LineSegment
    ensures r.to.Some? <==> r.kind == LineSegment
    ensures r.kind == NonTouching || r.kind == TouchingPoint || r.kind == LineSegment
  {
    var c1, c2 := Located(k1, g.loc11, g.loc12), Located(k2, g.loc21, g.loc22);
    SegmentOf(Overlap(CrossingSpan(c1, g.x11, g.x12), CrossingSpan(c2, g.x21, g.x22)),
      c1.innerDirection != (g.x11 > g.x12), c2.innerDirection != (g.x21 > g.x22),
      c1.touchedEdge, c2.touchedEdge, fh1, fh2, meldDistance)
  }


  /** What `intersect` returns, stated on the two classifications. */
  function IntersectSpec(fh1: Face, fh2: Face, g: LineGeometry, meldDistance: Int32): (r: TriangleIntersection)
    requires IntersectInRange(fh1, fh2, g, meldDistance)
    ensures r.from.Some? <==> r.kind == LineSegment
    ensures r.to.Some? <==> r.kind == LineSegment
    ensures r.kind == LineSegment ==> Classifiable(g)
  {
    if g.parallelNormals then
      NoSegment(if Sign(g.dist1.a) == 0 then Coplanar else Parallel)
    else if SignsOf(g.dist1).AllSame() || SignsOf(g.dist2).AllSame() then
      NoSegment(NonTouchingPlanes)
    else
      var k1, k2 := Classify(SignsOf(g.dist1), fh1), Classify(SignsOf(g.dist2), fh2);
      if !k1.isCorrect then NoSegment(k1.kind)
      else if !k2.isCorrect then NoSegment(k2.kind)
      else SegmentSpec(k1, k2, fh1, fh2, g, meldDistance)
  }

  /** `intersect(fh1, fh2)`, given the results of its floating-point geometry
      and the melding distance. */
  method Intersect(fh1: Face, fh2: Face, g: LineGeometry, meldDistance: Int32) returns (r: TriangleIntersection)
    requires IntersectInRange(fh1, fh2, g, meldDistance)
    ensures r == IntersectSpec(fh1, fh2, g, meldDistance)
  {
    var sa1, sb1, sc1 := Sign(g.dist1.a), Sign(g.dist1.b), Sign(g.dist1.c);
    var sa2, sb2, sc2 := Sign(g.dist2.a), Sign(g.dist2.b), Sign(g.dist2.c);
    assert SignsOf(g.dist1) == Signs(sa1, sb1, sc1) && SignsOf(g.dist2) == Signs(sa2, sb2, sc2);

    if g.parallelNormals {
      if sa1 == 0 {
        return NoSegment(Coplanar);
      }
      return NoSegment(Parallel);
    }
    if sa1 == sb1 && sb1 == sc1 {
      return NoSegment(NonTouchingPlanes);
    }
    if sa2 == sb2 && sb2 == sc2 {
      return NoSegment(NonTouchingPlanes);
    }

    var t1 := GetIntersectingEdges(sa1, sb1, sc1, fh1);
    if !t1.isCorrect {
      return NoSegment(t1.kind);
    }
    var t2 := GetIntersectingEdges(sa2, sb2, sc2, fh2);
    if !t2.isCorrect {
      return NoSegment(t2.kind);
    }
    r := ClipAndMeld(t1, t2, fh1, fh2, g, meldDistance);
  }

  /** Writes the locations on the line into a classification's new points,
      as `intersect` does for each of its four crossing points; vertex
      points keep their positions. */
  method LocateCrossings(t: TrianglePlaneIntersection, loc1: Point3, loc2: Point3)
    modifies t
    ensures t.Snapshot() == Located(old(t.Snapshot()), loc1, loc2)
  {
    t.line1, t.line2 := WithLocation(t.line1, loc1), WithLocation(t.line2, loc2);
  }

  /** The second half of `intersect`: locates the new points on the line,
      orders each triangle's crossing points, overlaps the two spans, and
      collapses or melds the segment found. */
  method ClipAndMeld(t1: TrianglePlaneIntersection, t2: TrianglePlaneIntersection, fh1: Face, fh2: Face, g: LineGeometry, meldDistance: Int32)
    returns (r: TriangleIntersection)
    requires t1 != t2
    requires IntersectInRange(fh1, fh2, g, meldDistance) && Crosses(t1.Snapshot()) && Crosses(t2.Snapshot())
    modifies t1, t2
    ensures r == SegmentSpec(old(t1.Snapshot()), old(t2.Snapshot()), fh1, fh2, g, meldDistance)
  {
    // new points receive their locations on the line
    LocateCrossings(t1, g.loc11, g.loc12);
    LocateCrossings(t2, g.loc21, g.loc22);
    ghost var c1, c2 := t1.Snapshot(), t2.Snapshot();

    var x11, x12 := OrderCrossings(t1, g.x11, g.x12);
    var x21, x22 := OrderCrossings(t2, g.x21, g.x22);
    var s1 := Span(Endpoint(t1.line1.intersection.value, x11), Endpoint(t1.line2.intersection.value, x12));
    var s2 := Span(Endpoint(t2.line1.intersection.value, x21), Endpoint(t2.line2.intersection.value, x22));
    assert s1 == CrossingSpan(c1, g.x11, g.x12) && s2 == CrossingSpan(c2, g.x21, g.x22);
    r := MeldOverlap(s1, s2, t1.innerDirection, t2.innerDirection, t1.touchedEdge, t2.touchedEdge,
                     fh1, fh2, meldDistance);
  }

  /** The tail of `intersect` on two spans sorted along the line. */
  method MeldOverlap(s1: Span, s2: Span, dir1: bool, dir2: bool, edge1: Option<EdgeRef>, edge2: Option<EdgeRef>,
                     fh1: Face, fh2: Face, meldDistance: Int32)
    returns (r: TriangleIntersection)
    requires s1.low.x <= s1.high.x && s2.low.x <= s2.high.x && SpanInRange(s1) && SpanInRange(s2)
    requires fh1.InRange() && fh2.InRange() && IsInt32(meldDistance * meldDistance)
    ensures r == SegmentOf(Overlap(s1, s2), dir1, dir2, edge1, edge2, fh1, fh2, meldDistance)
  {
    if s1.high.x < s2.low.x || s2.high.x < s1.low.x {
      return NoSegment(NonTouching);
    }

    var from := if s1.low.x > s2.low.x then s1.low.point else s2.low.point;
    var to := if s1.high.x < s2.high.x then s1.high.point else s2.high.point;
    assert Overlap(s1, s2).Some? && Overlap(s1, s2).value.low.point == from && Overlap(s1, s2).value.high.point == to;
    r := TriangleIntersection(Some(from), Some(to), dir1, dir2, edge1, edge2, LineSegment);

    if Near(from, to, meldDistance) {
      // two close new points are kept as a segment; one vertex twice is a touching point
      if to.VertexPoint? && from.VertexPoint? && to.vertex == from.vertex {
        assert Collapses(from, to, meldDistance);
        return NoSegment(TouchingPoint);
      }
    }
    assert !Collapses(from, to, meldDistance);

    // Meld keeps vertex points as they are
    r := r.(from := Some(Meld(r.from.value, fh1, fh2, meldDistance)));
    r := r.(to := Some(Meld(r.to.value, fh1, fh2, meldDistance)));
  }


  /** Parallel planes, and a triangle whose corners all have the same sign
      (strictly on one side of the other plane, or all on it), end
      `intersect` before any classification. */
  lemma IntersectEarlyExits(fh1: Face, fh2: Face, g: LineGeometry, meldDistance: Int32)
    requires IntersectInRange(fh1, fh2, g, meldDistance)
    ensures var r := IntersectSpec(fh1, fh2, g, meldDistance);
      && (g.parallelNormals ==> r.kind == (if g.dist1.a == 0.0 then Coplanar else Parallel))
      && (!g.parallelNormals && (SignsOf(g.dist1).AllSame() || SignsOf(g.dist2).AllSame()) ==> r.kind == NonTouchingPlanes)
      && (r.kind == NonTouchingPlanes <==> !g.parallelNormals && (SignsOf(g.dist1).AllSame() || SignsOf(g.dist2).AllSame()))
      && (r.kind == Coplanar <==> g.parallelNormals && g.dist1.a == 0.0)
      && (r.kind == Parallel <==> g.parallelNormals && g.dist1.a != 0.0)
  {
  }

  /** A classification that does not find two crossing points decides the
      type, the first triangle's before the second's. */
  lemma IntersectClassifierDecides(fh1: Face, fh2: Face, g: LineGeometry, meldDistance: Int32)
    requires IntersectInRange(fh1, fh2, g, meldDistance)
    requires Classifiable(g)
    ensures var r := IntersectSpec(fh1, fh2, g, meldDistance);
      var k1, k2 := Classify(SignsOf(g.dist1), fh1), Classify(SignsOf(g.dist2), fh2);
      && (!k1.isCorrect ==> r == NoSegment(k1.kind) && k1.kind == TouchingPoint)
      && (k1.isCorrect && !k2.isCorrect ==> r == NoSegment(k2.kind) && k2.kind == TouchingPoint)
  {
    ClassifyNotCorrect(SignsOf(g.dist1), fh1);
    ClassifyNotCorrect(SignsOf(g.dist2), fh2);
  }

  /** Once a classification is past the all-same-sign exit, it fails only
      when the triangle touches the plane in a single vertex. */
  lemma ClassifyNotCorrect(s: Signs, fh: Face)
    requires !s.AllSame()
    ensures !Classify(s, fh).isCorrect ==> Classify(s, fh).kind == TouchingPoint
  {
  }

  /** With both classifications correct, the triangles do not touch exactly
      when their parameter intervals along the line are disjoint. */
  lemma {:induction false} IntersectNonTouchingIff(fh1: Face, fh2: Face, g: LineGeometry, meldDistance: Int32)
    requires IntersectInRange(fh1, fh2, g, meldDistance)
    requires Classifiable(g)
    requires Classify(SignsOf(g.dist1), fh1).isCorrect && Classify(SignsOf(g.dist2), fh2).isCorrect
    ensures IntersectSpec(fh1, fh2, g, meldDistance).kind == NonTouching <==>
      MaxReal(g.x11, g.x12) < MinReal(g.x21, g.x22) || MaxReal(g.x21, g.x22) < MinReal(g.x11, g.x12)
  {
    var c1 := Located(Classify(SignsOf(g.dist1), fh1), g.loc11, g.loc12);
    var c2 := Located(Classify(SignsOf(g.dist2), fh2), g.loc21, g.loc22);
    var s1, s2 := CrossingSpan(c1, g.x11, g.x12), CrossingSpan(c2, g.x21, g.x22);
    assert s1.low.x == MinReal(g.x11, g.x12) && s1.high.x == MaxReal(g.x11, g.x12);
    assert s2.low.x == MinReal(g.x21, g.x22) && s2.high.x == MaxReal(g.x21, g.x22);
  }

  /** Once the two spans overlap, the result is a touching point exactly
      when the overlap's two ends are the same input vertex within the meld
      distance; otherwise it is a segment, in particular whenever either end
      is a new point, however close the two ends are. */
  lemma {:induction false} IntersectCollapseIff(fh1: Face, fh2: Face, g: LineGeometry, meldDistance: Int32)
    requires IntersectInRange(fh1, fh2, g, meldDistance)
    requires Classifiable(g)
    requires Classify(SignsOf(g.dist1), fh1).isCorrect && Classify(SignsOf(g.dist2), fh2).isCorrect
    requires !(MaxReal(g.x11, g.x12) < MinReal(g.x21, g.x22) || MaxReal(g.x21, g.x22) < MinReal(g.x11, g.x12))
    ensures var r := IntersectSpec(fh1, fh2, g, meldDistance);
      var c1 := Located(Classify(SignsOf(g.dist1), fh1), g.loc11, g.loc12);
      var c2 := Located(Classify(SignsOf(g.dist2), fh2), g.loc21, g.loc22);
      var seg := Overlap(CrossingSpan(c1, g.x11, g.x12), CrossingSpan(c2, g.x21, g.x22));
      var from, to := seg.value.low.point, seg.value.high.point;
      && seg.Some?
      && PointInRange(from) && PointInRange(to)
      && (r.kind == TouchingPoint <==>
            from.VertexPoint? && to.VertexPoint? && from.vertex == to.vertex && Near(from, to, meldDistance))
      && (r.kind == LineSegment <==> r.kind != TouchingPoint)
      && (from.NewPoint? || to.NewPoint? ==> r.kind == LineSegment)
  {
    var k1, k2 := Classify(SignsOf(g.dist1), fh1), Classify(SignsOf(g.dist2), fh2);
    var c1, c2 := Located(k1, g.loc11, g.loc12), Located(k2, g.loc21, g.loc22);
    var s1, s2 := CrossingSpan(c1, g.x11, g.x12), CrossingSpan(c2, g.x21, g.x22);
    assert s1.low.x == MinReal(g.x11, g.x12) && s1.high.x == MaxReal(g.x11, g.x12);
    assert s2.low.x == MinReal(g.x21, g.x22) && s2.high.x == MaxReal(g.x21, g.x22);
    var seg := Overlap(s1, s2);
    assert seg.Some?;
    assert IntersectSpec(fh1, fh2, g, meldDistance) == SegmentSpec(k1, k2, fh1, fh2, g, meldDistance);
  }

  /** A segment's flags are the classifier's inner directions, flipped for a
      triangle whose two crossing points were swapped, and its touched edges
      are the classifier's. */
  lemma IntersectSegmentFlags(fh1: Face, fh2: Face, g: LineGeometry, meldDistance: Int32)
    requires IntersectInRange(fh1, fh2, g, meldDistance)
    ensures var r := IntersectSpec(fh1, fh2, g, meldDistance);
      var k1, k2 := Classify(SignsOf(g.dist1), fh1), Classify(SignsOf(g.dist2), fh2);
      r.kind == LineSegment ==>
        && r.innerDirection1 == (k1.innerDirection != (g.x11 > g.x12))
        && r.innerDirection2 == (k2.innerDirection != (g.x21 > g.x22))
        && r.touchedEdge1 == k1.touchedEdge
        && r.touchedEdge2 == k2.touchedEdge
  {
    var r := IntersectSpec(fh1, fh2, g, meldDistance);
    if r.kind == LineSegment {
      var k1, k2 := Classify(SignsOf(g.dist1), fh1), Classify(SignsOf(g.dist2), fh2);
      var c1, c2 := Located(k1, g.loc11, g.loc12), Located(k2, g.loc21, g.loc22);
      assert k1.isCorrect && k2.isCorrect;
      var seg := Overlap(CrossingSpan(c1, g.x11, g.x12), CrossingSpan(c2, g.x21, g.x22));
      assert seg.Some?;
      assert !Collapses(seg.value.low.point, seg.value.high.point, meldDistance);
    }
  }

  /** A segment's ends are the ends of the overlap, melded. */
  lemma SegmentOfEnds(seg: Option<Span>, dir1: bool, dir2: bool, edge1: Option<EdgeRef>, edge2: Option<EdgeRef>,
                      fh1: Face, fh2: Face, meldDistance: Int32)
    requires seg.Some? ==> SpanInRange(seg.value)
    requires fh1.InRange() && fh2.InRange() && IsInt32(meldDistance * meldDistance)
    ensures var r := SegmentOf(seg, dir1, dir2, edge1, edge2, fh1, fh2, meldDistance);
      r.kind == LineSegment ==>
        && seg.Some?
        && r.from == Some(Meld(seg.value.low.point, fh1, fh2, meldDistance))
        && r.to == Some(Meld(seg.value.high.point, fh1, fh2, meldDistance))
  {
  }

  /** A segment runs between two of the four crossing points (after
      melding): from the one with the later start to the one with the
      earlier end, so the start never lies beyond the end. */
  lemma {:induction false} IntersectSegmentEnds(fh1: Face, fh2: Face, g: LineGeometry, meldDistance: Int32)
    requires IntersectInRange(fh1, fh2, g, meldDistance)
    ensures var r := IntersectSpec(fh1, fh2, g, meldDistance);
      r.kind == LineSegment ==>
        var c1 := Located(Classify(SignsOf(g.dist1), fh1), g.loc11, g.loc12);
        var c2 := Located(Classify(SignsOf(g.dist2), fh2), g.loc21, g.loc22);
        && c1.isCorrect && c2.isCorrect
        && MaxReal(MinReal(g.x11, g.x12), MinReal(g.x21, g.x22)) <= MinReal(MaxReal(g.x11, g.x12), MaxReal(g.x21, g.x22))
        && (exists e: Endpoint ::
              && e in {Endpoint(c1.line1.intersection.value, g.x11), Endpoint(c1.line2.intersection.value, g.x12),
                       Endpoint(c2.line1.intersection.value, g.x21), Endpoint(c2.line2.intersection.value, g.x22)}
              && e.x == MaxReal(MinReal(g.x11, g.x12), MinReal(g.x21, g.x22))
              && PointInRange(e.point)
              && r.from == Some(Meld(e.point, fh1, fh2, meldDistance)))
        && (exists e: Endpoint ::
              && e in {Endpoint(c1.line1.intersection.value, g.x11), Endpoint(c1.line2.intersection.value, g.x12),
                       Endpoint(c2.line1.intersection.value, g.x21), Endpoint(c2.line2.intersection.value, g.x22)}
              && e.x == MinReal(MaxReal(g.x11, g.x12), MaxReal(g.x21, g.x22))
              && PointInRange(e.point)
              && r.to == Some(Meld(e.point, fh1, fh2, meldDistance)))
  {
    var r := IntersectSpec(fh1, fh2, g, meldDistance);
    if r.kind == LineSegment {
      var c1 := Located(Classify(SignsOf(g.dist1), fh1), g.loc11, g.loc12);
      var c2 := Located(Classify(SignsOf(g.dist2), fh2), g.loc21, g.loc22);
      var k1, k2 := Classify(SignsOf(g.dist1), fh1), Classify(SignsOf(g.dist2), fh2);
      ClassifyNotCorrect(SignsOf(g.dist1), fh1);
      ClassifyNotCorrect(SignsOf(g.dist2), fh2);
      assert r == SegmentSpec(k1, k2, fh1, fh2, g, meldDistance);
      var s1, s2 := CrossingSpan(c1, g.x11, g.x12), CrossingSpan(c2, g.x21, g.x22);
      var seg := Overlap(s1, s2);
      assert r == SegmentOf(seg, c1.innerDirection != (g.x11 > g.x12), c2.innerDirection != (g.x21 > g.x22),
                            c1.touchedEdge, c2.touchedEdge, fh1, fh2, meldDistance);
      SegmentOfEnds(seg, c1.innerDirection != (g.x11 > g.x12), c2.innerDirection != (g.x21 > g.x22),
                    c1.touchedEdge, c2.touchedEdge, fh1, fh2, meldDistance);
      var e, f := seg.value.low, seg.value.high;
      assert e.x == MaxReal(MinReal(g.x11, g.x12), MinReal(g.x21, g.x22));
      assert f.x == MinReal(MaxReal(g.x11, g.x12), MaxReal(g.x21, g.x22));
      assert e in {s1.low, s1.high, s2.low, s2.high} && f in {s1.low, s1.high, s2.low, s2.high};
    }
  }

  /** The same geometry seen with the two triangles exchanged. */
  function Swap(g: LineGeometry): LineGeometry
  {
    g.(dist1 := g.dist2, dist2 := g.dist1,
       x11 := g.x21, x12 := g.x22, x21 := g.x11, x22 := g.x12,
       loc11 := g.loc21, loc12 := g.loc22, loc21 := g.loc11, loc22 := g.loc12)
  }

  /** Without ties at either end, the overlap of two spans does not depend
      on their order. */
  lemma OverlapSymmetric(s1: Span, s2: Span)
    requires s1.low.x <= s1.high.x && s2.low.x <= s2.high.x
    requires s1.low.x != s2.low.x && s1.high.x != s2.high.x
    ensures Overlap(s1, s2) == Overlap(s2, s1)
  {
  }

  /** Exchanging the triangles does not change the kind of intersection,
      provided the planes are not parallel (that exit reads only the first
      triangle's distances) and the two parameter intervals share neither
      end (a tie is resolved in favour of the second triangle). */
  lemma {:induction false} KindSymmetric(fh1: Face, fh2: Face, g: LineGeometry, meldDistance: Int32)
    requires IntersectInRange(fh1, fh2, g, meldDistance)
    requires !g.parallelNormals
    requires MinReal(g.x11, g.x12) != MinReal(g.x21, g.x22)
    requires MaxReal(g.x11, g.x12) != MaxReal(g.x21, g.x22)
    ensures IntersectInRange(fh2, fh1, Swap(g), meldDistance)
    ensures IntersectSpec(fh1, fh2, g, meldDistance).kind
         == IntersectSpec(fh2, fh1, Swap(g), meldDistance).kind
  {
    var h := Swap(g);
    if !(SignsOf(g.dist1).AllSame() || SignsOf(g.dist2).AllSame()) {
      var k1, k2 := Classify(SignsOf(g.dist1), fh1), Classify(SignsOf(g.dist2), fh2);
      ClassifyNotCorrect(SignsOf(g.dist1), fh1);
      ClassifyNotCorrect(SignsOf(g.dist2), fh2);
      if k1.isCorrect && k2.isCorrect {
        var c1, c2 := Located(k1, g.loc11, g.loc12), Located(k2, g.loc21, g.loc22);
        var s1, s2 := CrossingSpan(c1, g.x11, g.x12), CrossingSpan(c2, g.x21, g.x22);
        assert s1.low.x == MinReal(g.x11, g.x12) && s1.high.x == MaxReal(g.x11, g.x12);
        assert s2.low.x == MinReal(g.x21, g.x22) && s2.high.x == MaxReal(g.x21, g.x22);
        OverlapSymmetric(s1, s2);
        assert IntersectSpec(fh1, fh2, g, meldDistance) == SegmentSpec(k1, k2, fh1, fh2, g, meldDistance);
        assert IntersectSpec(fh2, fh1, h, meldDistance) == SegmentSpec(k2, k1, fh2, fh1, h, meldDistance);
      }
    }
  }

  /** The anchor O of the line parametrisation: the caller's point when
      given, else the first classification's anchor, else the second's.
      None stands for the point solved from the two plane equations. */
  function ChooseAnchor(hint: Option<Point3>, c1: PlaneCrossing, c2: PlaneCrossing): (o: Option<Point3>)
    ensures hint.Some? ==> o == hint
    ensures hint.None? && c1.anchor.Some? ==> o == c1.anchor
    ensures hint.None? && c1.anchor.None? ==> o == c2.anchor
    ensures o.None? <==> hint.None? && c1.anchor.None? && c2.anchor.None?
  {
    if hint.Some? then hint
    else if c1.anchor.Some? then c1.anchor
    else c2.anchor
  }

  /** Without a caller's point, a chosen anchor is a vertex of one triangle
      lying on the other triangle's plane, hence on the intersection line. */
  lemma AnchorLiesOnBothPlanes(s1: Signs, fh1: Face, s2: Signs, fh2: Face)
    ensures var o := ChooseAnchor(None, Classify(s1, fh1), Classify(s2, fh2));
      o.Some? ==>
        (exists i: Corner :: s1.At(i) == 0 && o.value == fh1.P(i)) ||
        (exists i: Corner :: s2.At(i) == 0 && o.value == fh2.P(i))
  {
    AnchorIsOnPlane(s1, fh1);
    AnchorIsOnPlane(s2, fh2);
  }

  /** Melding twice melds no further. */
  lemma MeldIdempotent(p: IntersectionPoint, fh1: Face, fh2: Face, len: Int32)
    requires PointInRange(p) && fh1.InRange() && fh2.InRange() && IsInt32(len * len)
    ensures Meld(Meld(p, fh1, fh2, len), fh1, fh2, len) == Meld(p, fh1, fh2, len)
  {
  }
}
