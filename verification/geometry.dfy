/** The values the generator and the writers pass around: points, tetrahedra
    and the five intersection classes. Coordinates are exact numbers. */
module Geometry {

  datatype Point3 = Point3(x: real, y: real, z: real) {

    /** Coordinate 0, 1 or 2: x, y, z. */
    function Coordinate(axis: nat): real
      requires axis < 3
    {
      if axis == 0 then x else if axis == 1 then y else z
    }
  }

  /** A tetrahedron given by its four vertices in order, as Tetrahedron_3 stores them. */
  datatype Tetrahedron = Tetrahedron(v0: Point3, v1: Point3, v2: Point3, v3: Point3) {

    /** tetrahedron.vertex(i) for i in 0..3. */
    function Vertex(i: nat): Point3
      requires i < 4
    {
      if i == 0 then v0 else if i == 1 then v1 else if i == 2 then v2 else v3
    }
  }

  /** The five classes of the intersection of two tetrahedra, in declaration order. */
  datatype IntersectionType = None | Point | Segment | Polygon | Polyhedron

  /** static_cast<int> of the enumerator: its position in the declaration. */
  function Ordinal(t: IntersectionType): (k: nat)
    ensures k < 5
  {
    match t
    case None => 0
    case Point => 1
    case Segment => 2
    case Polygon => 3
    case Polyhedron => 4
  }

  /** The enumerator at position k; the inverse of Ordinal. */
  function FromOrdinal(k: nat): (t: IntersectionType)
    requires k < 5
    ensures Ordinal(t) == k
  {
    if k == 0 then None
    else if k == 1 then Point
    else if k == 2 then Segment
    else if k == 3 then Polygon
    else Polyhedron
  }

  /** Ordinal is one-to-one: FromOrdinal recovers every enumerator. */
  lemma OrdinalRoundTrip(t: IntersectionType)
    ensures FromOrdinal(Ordinal(t)) == t
  {
  }
}
