/** GeometryUtils: the classification of the intersection of two tetrahedra
    from the boundary complex the exact kernel computes, and the list of the
    intersection's vertices. The kernel is not modelled; what it answers for
    one pair of tetrahedra is an input, a KernelView. */
module GeometryUtils {
  import opened Errors
  import opened Geometry

  const MESH_OPEN := "Mesh is open"
  const CONVERSION_FAILED := "Conversion Failed"
  const UNCLASSIFIABLE := "Something Went Wrong!"

  /** Values of a size_t are taken modulo 2^64. */
  const SIZE_MODULUS: int := 0x1_0000_0000_0000_0000
  /** Values of an int are taken modulo 2^32, in [-2^31, 2^31). */
  const INT_MODULUS: int := 0x1_0000_0000
  const INT_MIN: int := -0x8000_0000
  const INT_MAX: int := 0x7fff_ffff

  /** The answers of the exact kernel for one pair (T1, T2):
      - doIntersect: CGAL::do_intersect(T1, T2);
      - hull1Closed, hull2Closed: whether the convex hull of each tetrahedron
        is a closed mesh (tetrahedronToMesh throws otherwise);
      - nef1Empty, nef2Empty: whether each Nef polyhedron is empty;
      - intersectionEmpty: whether the Nef intersection nef1 * nef2 is empty;
      - meshValid: is_valid_polygon_mesh of the intersection converted to a Polyhedron_3;
      - resultVertices, edgeCount, faceCount: that polyhedron's vertex points in
        iteration order, and its numbers of edges and facets. */
  datatype KernelView = KernelView(
    doIntersect: bool,
    hull1Closed: bool,
    hull2Closed: bool,
    nef1Empty: bool,
    nef2Empty: bool,
    intersectionEmpty: bool,
    meshValid: bool,
    resultVertices: seq<Point3>,
    edgeCount: nat,
    faceCount: nat)
  {
    predicate HullsClosed() {
      hull1Closed && hull2Closed
    }

    /** Both operands and their intersection are non-empty. */
    predicate NonEmpty() {
      !nef1Empty && !nef2Empty && !intersectionEmpty
    }

    /** The classifier reaches the counting of vertices, edges and faces. */
    predicate Counted() {
      HullsClosed() && NonEmpty() && meshValid
    }
  }

  /** Conversion of an integer to a 32-bit int, keeping its value modulo 2^32. */
  function NarrowToInt(u: int): (r: int)
    ensures INT_MIN <= r <= INT_MAX
    ensures INT_MIN <= u <= INT_MAX ==> r == u
  {
    var m := u % INT_MODULUS;
    if m <= INT_MAX then m else m - INT_MODULUS
  }

  /** int euler_characteristic = num_vertices - num_edges + num_faces, computed
      on size_t (wrapping modulo 2^64) and narrowed to int. For counts below
      2^30 it is V - E + F itself. */
  function EulerCharacteristic(v: nat, e: nat, f: nat): (chi: int)
    ensures INT_MIN <= chi <= INT_MAX
    ensures v < 0x4000_0000 && e < 0x4000_0000 && f < 0x4000_0000 ==> chi == v - e + f
  {
    var x := v - e + f;
    WrapThenNarrow(x);
    NarrowToInt(x % SIZE_MODULUS)
  }

  /** Wrapping modulo 2^64 before narrowing to 32 bits changes nothing. */
  lemma WrapThenNarrow(x: int)
    ensures NarrowToInt(x % SIZE_MODULUS) == NarrowToInt(x)
  {
    var w := x % SIZE_MODULUS;
    assert SIZE_MODULUS == INT_MODULUS * INT_MODULUS;
    var k := x / SIZE_MODULUS;
    assert x == k * SIZE_MODULUS + w;
    assert x == (k * INT_MODULUS) * INT_MODULUS + w;
    ModuloShift(w, k * INT_MODULUS);
  }

  lemma ModuloShift(w: int, j: int)
    ensures (j * INT_MODULUS + w) % INT_MODULUS == w % INT_MODULUS
  {
  }

  /** getIntersectionClassification, decided from the kernel's answers. */
  function Classify(k: KernelView): (r: Result<IntersectionType>)
    // tetrahedronToMesh runs first, on T1 and then T2
    ensures r == Err(RuntimeError(MESH_OPEN)) <==> !k.HullsClosed()
    // an empty operand or an empty intersection is None, before any conversion
    ensures r == Ok(None) <==> k.HullsClosed() && !k.NonEmpty()
    // an invalid mesh fails before anything is counted
    ensures r == Err(RuntimeError(CONVERSION_FAILED)) <==> k.HullsClosed() && k.NonEmpty() && !k.meshValid
    // one vertex is a point, whatever the edges and faces
    ensures r == Ok(Point) <==> k.Counted() && |k.resultVertices| == 1
    ensures r == Ok(Segment) <==> k.Counted() && |k.resultVertices| == 2 && k.edgeCount == 1
    ensures r == Ok(Polygon) <==>
      && k.Counted() && |k.resultVertices| != 1 && !(|k.resultVertices| == 2 && k.edgeCount == 1)
      && k.faceCount > 0 && EulerCharacteristic(|k.resultVertices|, k.edgeCount, k.faceCount) == 1
    ensures r == Ok(Polyhedron) <==>
      && k.Counted() && |k.resultVertices| != 1 && !(|k.resultVertices| == 2 && k.edgeCount == 1)
      && k.faceCount > 0 && EulerCharacteristic(|k.resultVertices|, k.edgeCount, k.faceCount) == 2
    // every other combination of counts is a fatal error, never a label
    ensures r == Err(RuntimeError(UNCLASSIFIABLE)) <==>
      && k.Counted() && |k.resultVertices| != 1 && !(|k.resultVertices| == 2 && k.edgeCount == 1)
      && (k.faceCount == 0 || EulerCharacteristic(|k.resultVertices|, k.edgeCount, k.faceCount) !in {1, 2})
  {
    if !k.hull1Closed || !k.hull2Closed then
      Err(RuntimeError(MESH_OPEN))
    else if k.nef1Empty || k.nef2Empty then
      Ok(None)
    else if k.intersectionEmpty then
      Ok(None)
    else if !k.meshValid then
      Err(RuntimeError(CONVERSION_FAILED))
    else
      var v, e, f := |k.resultVertices|, k.edgeCount, k.faceCount;
      if v == 1 then
        Ok(Point)
      else if v == 2 && e == 1 then
        Ok(Segment)
      else if f > 0 && EulerCharacteristic(v, e, f) == 1 then
        Ok(Polygon)
      else if f > 0 && EulerCharacteristic(v, e, f) == 2 then
        Ok(Polyhedron)
      else
        Err(RuntimeError(UNCLASSIFIABLE))
  }

  /** The classifier never invents a fourth kind of failure. */
  lemma ClassifyOutcomes(k: KernelView)
    ensures Classify(k).Ok? || Classify(k).error in
      {RuntimeError(MESH_OPEN), RuntimeError(CONVERSION_FAILED), RuntimeError(UNCLASSIFIABLE)}
  {
  }

  /** An independent description of what an intersection of two tetrahedra
      can be, by its boundary complex: a single point; a segment; a convex
      polygon with n corners (n vertices, n edges, one face); a convex
      polyhedron with V - E + F = 2 (Euler's formula). */
  datatype Shape = PointShape | SegmentShape | PolygonShape(corners: nat) | PolyhedronShape(v: nat, e: nat, f: nat)

  ghost predicate ValidShape(s: Shape) {
    match s
    case PointShape => true
    case SegmentShape => true
    case PolygonShape(n) => 3 <= n < 0x4000_0000
    case PolyhedronShape(v, e, f) =>
      4 <= v < 0x4000_0000 && e < 0x4000_0000 && 4 <= f < 0x4000_0000 && v - e + f == 2
  }

  function ShapeClass(s: Shape): IntersectionType {
    match s
    case PointShape => Point
    case SegmentShape => Segment
    case PolygonShape(_) => Polygon
    case PolyhedronShape(_, _, _) => Polyhedron
  }

  /** The kernel view reports the boundary complex of the shape. */
  ghost predicate Reports(k: KernelView, s: Shape) {
    match s
    case PointShape => |k.resultVertices| == 1 && k.edgeCount == 0 && k.faceCount == 0
    case SegmentShape => |k.resultVertices| == 2 && k.edgeCount == 1 && k.faceCount == 0
    case PolygonShape(n) => |k.resultVertices| == n && k.edgeCount == n && k.faceCount == 1
    case PolyhedronShape(v, e, f) => |k.resultVertices| == v && k.edgeCount == e && k.faceCount == f
  }

  /** The classifier names every possible shape correctly. */
  lemma ClassifiesEveryShape(k: KernelView, s: Shape)
    requires k.Counted() && ValidShape(s) && Reports(k, s)
    ensures Classify(k) == Ok(ShapeClass(s))
  {
  }

  /** getIntersectionShape: the vertices of the intersection, or none. */
  function IntersectionShape(k: KernelView): (r: Result<seq<Point3>>)
    // do_intersect is asked first: disjoint tetrahedra have no shape
    ensures !k.doIntersect ==> r == Ok([])
    ensures r == Err(RuntimeError(MESH_OPEN)) <==> k.doIntersect && !k.HullsClosed()
    ensures r == Err(RuntimeError(CONVERSION_FAILED)) <==>
      k.doIntersect && k.HullsClosed() && !k.intersectionEmpty && !k.meshValid
    ensures k.doIntersect && k.HullsClosed() && k.intersectionEmpty ==> r == Ok([])
    // otherwise exactly the converted polyhedron's vertices, in iteration order
    ensures r.Ok? && r.value != [] ==> r.value == k.resultVertices && k.doIntersect && k.meshValid
    ensures k.doIntersect && k.HullsClosed() && !k.intersectionEmpty && k.meshValid ==> r == Ok(k.resultVertices)
  {
    if !k.doIntersect then
      Ok([])
    else if !k.hull1Closed || !k.hull2Closed then
      Err(RuntimeError(MESH_OPEN))
    else if k.intersectionEmpty then
      Ok([])
    else if !k.meshValid then
      Err(RuntimeError(CONVERSION_FAILED))
    else
      Ok(k.resultVertices)
  }

  /** A kernel whose answers agree with each other: tetrahedra are never empty
      solids, do_intersect holds exactly when the Nef intersection is
      non-empty, and a non-empty intersection has at least one vertex. */
  ghost predicate Coherent(k: KernelView) {
    && !k.nef1Empty && !k.nef2Empty
    && (k.doIntersect <==> !k.intersectionEmpty)
    && (!k.intersectionEmpty ==> |k.resultVertices| >= 1)
  }

  /** With a coherent kernel, the shape and the class agree: no shape exactly
      when the class is None, one vertex for a point, two for a segment, and
      the two report the same failures. */
  lemma ShapeAgreesWithClass(k: KernelView)
    requires Coherent(k) && k.HullsClosed()
    ensures Classify(k) == Ok(None) <==> IntersectionShape(k) == Ok([])
    ensures Classify(k) == Ok(Point) ==> IntersectionShape(k).Ok? && |IntersectionShape(k).value| == 1
    ensures Classify(k) == Ok(Segment) ==> IntersectionShape(k).Ok? && |IntersectionShape(k).value| == 2
    ensures Classify(k) == Err(RuntimeError(CONVERSION_FAILED)) <==> IntersectionShape(k) == Err(RuntimeError(CONVERSION_FAILED))
  {
  }
}
