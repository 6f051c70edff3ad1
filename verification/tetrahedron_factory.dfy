/** TetrahedronFactory: random tetrahedron pairs by rejection sampling, and
    the choice of generator from a type number.

    The exact kernel's is_degenerate and do_intersect are uninterpreted: they
    are the fields of a Kernel value. The shared CGAL::Random generator is the
    stream of values in [0,1) it produces, read from a position on. A
    rejection loop of the source has no bound; here it is given `fuel`, the
    number of rounds it may draw, and reports Exhausted when they run out. */
module TetrahedronFactory {
  import opened Errors
  import opened Geometry
  import Decimal

  /** What CGAL::Random::get_double() returns: a value in [0, 1). */
  type Unit = u: real | 0.0 <= u < 1.0

  /** The shared generator: the value it returns on its n-th call. */
  type Draws = nat -> Unit

  datatype Kernel = Kernel(
    isDegenerate: Tetrahedron -> bool,
    doIntersect: (Tetrahedron, Tetrahedron) -> bool)

  datatype Pair = Pair(first: Tetrahedron, second: Tetrahedron)

  /** CGAL::Random::get_double(0.0, 1.0): lower + (upper - lower) * u for a unit draw u. */
  function GetDouble(u: Unit): (r: real)
    ensures 0.0 <= r < 1.0
  {
    0.0 + (1.0 - 0.0) * u
  }

  /** generateRandomPoint: x, y, z from three consecutive draws, each in [0, 1). */
  function GenerateRandomPoint(draws: Draws, at: nat): (p: Point3)
    ensures 0.0 <= p.x < 1.0 && 0.0 <= p.y < 1.0 && 0.0 <= p.z < 1.0
    ensures p.x == draws(at) && p.y == draws(at + 1) && p.z == draws(at + 2)
  {
    Point3(GetDouble(draws(at)), GetDouble(draws(at + 1)), GetDouble(draws(at + 2)))
  }

  /** Draws consumed by one round of a rejection loop: eight points of three coordinates. */
  const DRAWS_PER_ROUND: nat := 24

  /** The points of consecutive calls of generateRandomPoint that read the
      draws from position `at` up to `end`, three draws each. */
  function DrawPoints(draws: Draws, at: nat, end: nat): (ps: seq<Point3>)
    requires at <= end && (end - at) % 3 == 0
    ensures |ps| == (end - at) / 3
    decreases end - at
  {
    if at == end then [] else [GenerateRandomPoint(draws, at)] + DrawPoints(draws, at + 3, end)
  }

  /** The i-th drawn point reads the three draws from at + 3i on. */
  lemma {:induction false} DrawPointsAt(draws: Draws, at: nat, end: nat, i: nat)
    requires at + 3 * i < end && (end - at) % 3 == 0
    ensures DrawPoints(draws, at, end)[i] == GenerateRandomPoint(draws, at + 3 * i)
    decreases i
  {
    if i > 0 {
      DrawPointsAt(draws, at + 3, end, i - 1);
    }
  }

  /** A point with every coordinate in [0, 1). */
  predicate InUnitCube(p: Point3) {
    0.0 <= p.x < 1.0 && 0.0 <= p.y < 1.0 && 0.0 <= p.z < 1.0
  }

  /** Every drawn point lies in the unit cube. */
  lemma {:induction false} DrawnInUnitCube(draws: Draws, at: nat, end: nat, k: nat)
    requires at <= end && (end - at) % 3 == 0 && at + 3 * k < end
    ensures InUnitCube(DrawPoints(draws, at, end)[k])
  {
    DrawPointsAt(draws, at, end, k);
  }

  /** The pair built in round `round` of a loop that starts reading at `from`:
      vertices A, B, C, D of the first tetrahedron, then 0, 1, 2, 3 of the
      second, all eight drawn afresh. Every coordinate of every vertex lies
      in [0, 1). */
  function RoundPair(draws: Draws, from: nat, round: nat): (p: Pair)
    ensures forall i, axis :: 0 <= i < 4 && 0 <= axis < 3 ==>
      && 0.0 <= p.first.Vertex(i).Coordinate(axis) < 1.0
      && 0.0 <= p.second.Vertex(i).Coordinate(axis) < 1.0
  {
    var at := from + DRAWS_PER_ROUND * round;
    var ps := DrawPoints(draws, at, at + DRAWS_PER_ROUND);
    var p := Pair(Tetrahedron(ps[0], ps[1], ps[2], ps[3]), Tetrahedron(ps[4], ps[5], ps[6], ps[7]));
    forall i, axis | 0 <= i < 4 && 0 <= axis < 3
      ensures 0.0 <= p.first.Vertex(i).Coordinate(axis) < 1.0
      ensures 0.0 <= p.second.Vertex(i).Coordinate(axis) < 1.0
    {
      DrawnInUnitCube(draws, at, at + DRAWS_PER_ROUND, i);
      DrawnInUnitCube(draws, at, at + DRAWS_PER_ROUND, i + 4);
      assert p.first.Vertex(i) == ps[i] && p.second.Vertex(i) == ps[i + 4];
    }
    p
  }

  /** Every round reads its own 24 draws: the pair of round n depends on
      nothing but the draws from + 24n to from + 24n + 23, so a round shares no
      draw with another. */
  lemma RoundPairDraws(draws: Draws, from: nat, round: nat, i: nat)
    requires i < 4
    ensures var p := RoundPair(draws, from, round);
      && p.first.Vertex(i) == GenerateRandomPoint(draws, from + DRAWS_PER_ROUND * round + 3 * i)
      && p.second.Vertex(i) == GenerateRandomPoint(draws, from + DRAWS_PER_ROUND * round + 12 + 3 * i)
  {
    var at := from + DRAWS_PER_ROUND * round;
    var ps := DrawPoints(draws, at, at + DRAWS_PER_ROUND);
    var p := RoundPair(draws, from, round);
    assert p.first.Vertex(i) == ps[i] && p.second.Vertex(i) == ps[i + 4];
    DrawPointsAt(draws, at, at + DRAWS_PER_ROUND, i);
    DrawPointsAt(draws, at, at + DRAWS_PER_ROUND, i + 4);
  }

  /** The exit condition of each of the three do-while loops. */
  datatype Goal = AnyPair | Disjoint | Intersecting

  predicate Accepts(k: Kernel, goal: Goal, p: Pair) {
    && !k.isDegenerate(p.first)
    && !k.isDegenerate(p.second)
    && match goal
       case AnyPair => true
       case Disjoint => !k.doIntersect(p.first, p.second)
       case Intersecting => k.doIntersect(p.first, p.second)
  }

  /** What asking for a pair can give: a pair and the number of rounds drawn;
      no pair within the fuel; no generator (types 2 to 4 have an empty body);
      or the exception thrown. */
  datatype Generation =
    | Generated(pair: Pair, rounds: nat)
    | Exhausted
    | Stub(kind: IntersectionType)
    | Failed(error: Error)

  /** One do-while rejection loop over the pairs its rounds draw, round n
      giving `rounds(n)`: stop at the first round whose pair meets the goal and
      return that pair, built from that round's draws alone. */
  method RejectionSample(k: Kernel, goal: Goal, rounds: nat -> Pair, fuel: nat) returns (g: Generation)
    ensures g.Generated? || g.Exhausted?
    ensures g.Generated? ==>
      && 1 <= g.rounds <= fuel
      && g.pair == rounds(g.rounds - 1)
      && Accepts(k, goal, g.pair)
      && forall j :: 0 <= j < g.rounds - 1 ==> !Accepts(k, goal, rounds(j))
    ensures g.Exhausted? <==> forall j :: 0 <= j < fuel ==> !Accepts(k, goal, rounds(j))
  {
    var round := 0;
    while round < fuel
      invariant round <= fuel
      invariant forall j :: 0 <= j < round ==> !Accepts(k, goal, rounds(j))
    {
      var candidate := rounds(round);
      if Accepts(k, goal, candidate) {
        return Generated(candidate, round + 1);
      }
      round := round + 1;
    }
    return Exhausted;
  }

  /** createRandomTetrahedronPair(): two non-degenerate tetrahedra. */
  method CreateRandomTetrahedronPair(k: Kernel, draws: Draws, from: nat, fuel: nat) returns (g: Generation)
    ensures g.Generated? || g.Exhausted?
    ensures g.Generated? ==> !k.isDegenerate(g.pair.first) && !k.isDegenerate(g.pair.second)
    ensures g.Generated? ==> 1 <= g.rounds <= fuel && g.pair == RoundPair(draws, from, g.rounds - 1)
    ensures g.Exhausted? <==> forall j :: 0 <= j < fuel ==>
      k.isDegenerate(RoundPair(draws, from, j).first) || k.isDegenerate(RoundPair(draws, from, j).second)
  {
    var rounds := (n: nat) => RoundPair(draws, from, n);
    assert forall n: nat :: rounds(n) == RoundPair(draws, from, n);
    g := RejectionSample(k, AnyPair, rounds, fuel);
  }

  /** createType1TetrahedronPair: two non-degenerate tetrahedra that do not intersect. */
  method CreateType1TetrahedronPair(k: Kernel, draws: Draws, from: nat, fuel: nat) returns (g: Generation)
    ensures g.Generated? || g.Exhausted?
    ensures g.Generated? ==>
      && !k.isDegenerate(g.pair.first) && !k.isDegenerate(g.pair.second)
      && !k.doIntersect(g.pair.first, g.pair.second)
    ensures g.Generated? ==> 1 <= g.rounds <= fuel && g.pair == RoundPair(draws, from, g.rounds - 1)
    ensures g.Exhausted? <==> forall j :: 0 <= j < fuel ==> !Accepts(k, Disjoint, RoundPair(draws, from, j))
  {
    var rounds := (n: nat) => RoundPair(draws, from, n);
    assert forall n: nat :: rounds(n) == RoundPair(draws, from, n);
    g := RejectionSample(k, Disjoint, rounds, fuel);
  }

  /** createType5TetrahedronPair: two non-degenerate tetrahedra that intersect. */
  method CreateType5TetrahedronPair(k: Kernel, draws: Draws, from: nat, fuel: nat) returns (g: Generation)
    ensures g.Generated? || g.Exhausted?
    ensures g.Generated? ==>
      && !k.isDegenerate(g.pair.first) && !k.isDegenerate(g.pair.second)
      && k.doIntersect(g.pair.first, g.pair.second)
    ensures g.Generated? ==> 1 <= g.rounds <= fuel && g.pair == RoundPair(draws, from, g.rounds - 1)
    ensures g.Exhausted? <==> forall j :: 0 <= j < fuel ==> !Accepts(k, Intersecting, RoundPair(draws, from, j))
  {
    var rounds := (n: nat) => RoundPair(draws, from, n);
    assert forall n: nat :: rounds(n) == RoundPair(draws, from, n);
    g := RejectionSample(k, Intersecting, rounds, fuel);
  }

  const INVALID_TYPE := "Invalid tetrahedron type: "

  /** The class whose generator createRandomTetrahedronPair(type) calls. Type 0
      is replaced by rand() % 5 + 1, where `random` is the value rand() returned;
      types 1 to 5 are the classes in declaration order; any other type is an
      invalid_argument naming it. */
  function Dispatch(typeNumber: int, random: nat): (r: Result<IntersectionType>)
    ensures r.Ok? <==> 0 <= typeNumber <= 5
    ensures 1 <= typeNumber <= 5 ==> r.Ok? && Ordinal(r.value) == typeNumber - 1
    ensures typeNumber == 0 ==> r.Ok? && Ordinal(r.value) == random % 5
    ensures r.Err? ==> r.error.InvalidArgument?
  {
    var chosen := if typeNumber == 0 then random % 5 + 1 else typeNumber;
    if 1 <= chosen <= 5 then
      Ok(FromOrdinal(chosen - 1))
    else
      Err(InvalidArgument(INVALID_TYPE + Decimal.IntToString(chosen)))
  }

  /** The invalid_argument message ends with the offending value, which reads back. */
  lemma DispatchNamesInvalidType(typeNumber: int, random: nat)
    requires Dispatch(typeNumber, random).Err?
    ensures var m := Dispatch(typeNumber, random).error.message;
      && |INVALID_TYPE| < |m| && m[..|INVALID_TYPE|] == INVALID_TYPE
      && Decimal.IsIntText(m[|INVALID_TYPE|..]) && Decimal.ParseInt(m[|INVALID_TYPE|..]) == typeNumber
  {
    var m := Dispatch(typeNumber, random).error.message;
    assert m[|INVALID_TYPE|..] == Decimal.IntToString(typeNumber);
  }

  /** createRandomTetrahedronPair(type): dispatch, then run the chosen generator. */
  method CreateRandomTetrahedronPairOfType(typeNumber: int, random: nat, k: Kernel, draws: Draws, from: nat, fuel: nat)
    returns (g: Generation)
    ensures g.Failed? <==> typeNumber < 0 || 5 < typeNumber
    ensures g.Failed? ==> g.error == Dispatch(typeNumber, random).error
    ensures g.Stub? <==> Dispatch(typeNumber, random) in {Ok(Point), Ok(Segment), Ok(Polygon)}
    ensures g.Stub? ==> Ok(g.kind) == Dispatch(typeNumber, random)
    ensures g.Generated? && Dispatch(typeNumber, random) == Ok(None) ==>
      !k.isDegenerate(g.pair.first) && !k.isDegenerate(g.pair.second) && !k.doIntersect(g.pair.first, g.pair.second)
    ensures g.Generated? && Dispatch(typeNumber, random) == Ok(Polyhedron) ==>
      !k.isDegenerate(g.pair.first) && !k.isDegenerate(g.pair.second) && k.doIntersect(g.pair.first, g.pair.second)
    ensures g.Generated? ==> Dispatch(typeNumber, random) in {Ok(None), Ok(Polyhedron)}
  {
    var d := Dispatch(typeNumber, random);
    if d.Err? {
      return Failed(d.error);
    }
    match d.value
    case None =>
      g := CreateType1TetrahedronPair(k, draws, from, fuel);
    case Polyhedron =>
      g := CreateType5TetrahedronPair(k, draws, from, fuel);
    case _ =>
      g := Stub(d.value);
  }
}
