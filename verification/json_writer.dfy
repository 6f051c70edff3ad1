/** JSONWriter: the records collected for the JSON dataset. The JSON
    document itself is held as structured values; its serialisation on
    destruction is not part of this model. */
module JsonWriter {
  import opened Geometry

  /** The edges listed with every tetrahedron (line 30 of JSONWriter.cpp). */
  const EDGES: seq<(nat, nat)> := [(0, 1), (0, 2), (0, 3), (1, 2), (1, 3), (2, 3)]

  /** The six edges are exactly the pairs i < j of vertices 0..3, each listed once. */
  lemma EdgesArePairs()
    ensures forall k :: 0 <= k < |EDGES| ==> EDGES[k].0 < EDGES[k].1 < 4
    ensures forall i, j :: 0 <= i < j < 4 ==> (i, j) in EDGES
    ensures forall k, l :: 0 <= k < l < |EDGES| ==> EDGES[k] != EDGES[l]
  {
    forall i, j | 0 <= i < j < 4
      ensures (i, j) in EDGES
    {
      var k := if i == 0 then j - 1 else if i == 1 then j + 1 else 5;
      assert EDGES[k] == (i, j);
    }
  }

  /** A vertex as the three doubles x, y, z; toDouble stands for CGAL::to_double. */
  function VertexRecord(p: Point3, toDouble: real -> real): (v: seq<real>)
    ensures |v| == 3
  {
    [toDouble(p.x), toDouble(p.y), toDouble(p.z)]
  }

  datatype TetrahedronRecord = TetrahedronRecord(vertices: seq<seq<real>>, edges: seq<(nat, nat)>)

  /** tetrahedronToJson. */
  function TetrahedronToJson(t: Tetrahedron, toDouble: real -> real): (r: TetrahedronRecord)
    ensures |r.vertices| == 4 && r.edges == EDGES
    ensures forall i :: 0 <= i < 4 ==> r.vertices[i] == VertexRecord(t.Vertex(i), toDouble)
  {
    TetrahedronRecord(seq(4, i requires 0 <= i < 4 => VertexRecord(t.Vertex(i), toDouble)), EDGES)
  }

  datatype Entry = Entry(id: int, tetrahedron1: TetrahedronRecord, tetrahedron2: TetrahedronRecord, intersectionStatus: int)

  /** The writer's state: the entries so far and the next id. A new writer has none and id 1. */
  datatype JsonState = JsonState(data: seq<Entry>, idCounter: int)

  const FRESH := JsonState([], 1)

  /** JSONWriter::writeEntry: the entry takes the current id, which then advances. */
  function WriteEntry(w: JsonState, t1: Tetrahedron, t2: Tetrahedron, intersectionStatus: bool,
                      toDouble: real -> real): (w': JsonState)
    ensures |w'.data| == |w.data| + 1 && w'.data[..|w.data|] == w.data
    ensures w'.idCounter == w.idCounter + 1
    ensures w'.data[|w.data|].id == w.idCounter
    ensures w'.data[|w.data|].intersectionStatus == (if intersectionStatus then 1 else 0)
  {
    var entry := Entry(w.idCounter, TetrahedronToJson(t1, toDouble), TetrahedronToJson(t2, toDouble),
                       if intersectionStatus then 1 else 0);
    JsonState(w.data + [entry], w.idCounter + 1)
  }

  /** One call to writeEntry: two tetrahedra and whether they intersect. */
  datatype Call = Call(t1: Tetrahedron, t2: Tetrahedron, intersects: bool)

  /** The writer after the calls, in order. */
  function WriteAll(w: JsonState, calls: seq<Call>, toDouble: real -> real): JsonState
    decreases |calls|
  {
    if |calls| == 0 then w
    else WriteAll(WriteEntry(w, calls[0].t1, calls[0].t2, calls[0].intersects, toDouble), calls[1..], toDouble)
  }

  /** e is the record of call c under the given id. */
  predicate RecordsCall(e: Entry, id: int, c: Call, toDouble: real -> real) {
    && e.id == id
    && e.tetrahedron1 == TetrahedronToJson(c.t1, toDouble)
    && e.tetrahedron2 == TetrahedronToJson(c.t2, toDouble)
    && (e.intersectionStatus == 1 <==> c.intersects)
  }

  /** The calls append one entry each, in order, with consecutive ids from the
      writer's counter on; the entries already there stay as they were. */
  lemma {:induction false} IdsAreConsecutive(w: JsonState, calls: seq<Call>, toDouble: real -> real)
    ensures var w' := WriteAll(w, calls, toDouble);
      && |w'.data| == |w.data| + |calls|
      && w'.data[..|w.data|] == w.data
      && w'.idCounter == w.idCounter + |calls|
      && forall k :: 0 <= k < |calls| ==>
           RecordsCall(w'.data[|w.data| + k], w.idCounter + k, calls[k], toDouble)
    decreases |calls|
  {
    if |calls| > 0 {
      var w1 := WriteEntry(w, calls[0].t1, calls[0].t2, calls[0].intersects, toDouble);
      IdsAreConsecutive(w1, calls[1..], toDouble);
      var w' := WriteAll(w, calls, toDouble);
      assert w' == WriteAll(w1, calls[1..], toDouble);
      assert w'.data[..|w1.data|] == w1.data;
      assert w'.data[..|w.data|] == w1.data[..|w.data|];
      forall k | 0 <= k < |calls|
        ensures RecordsCall(w'.data[|w.data| + k], w.idCounter + k, calls[k], toDouble)
      {
        if k == 0 {
          assert w'.data[|w.data|] == w1.data[|w.data|];
        } else {
          assert calls[k] == calls[1..][k - 1];
          assert RecordsCall(w'.data[|w1.data| + (k - 1)], w1.idCounter + (k - 1), calls[1..][k - 1], toDouble);
        }
      }
    }
  }

  /** From a fresh writer the ids are 1, 2, ..., in call order. */
  lemma FreshIdsCountFromOne(calls: seq<Call>, toDouble: real -> real)
    ensures var w := WriteAll(FRESH, calls, toDouble);
      && |w.data| == |calls|
      && forall k :: 0 <= k < |calls| ==> w.data[k].id == k + 1
  {
    IdsAreConsecutive(FRESH, calls, toDouble);
    var w := WriteAll(FRESH, calls, toDouble);
    forall k | 0 <= k < |calls|
      ensures w.data[k].id == k + 1
    {
      assert RecordsCall(w.data[|FRESH.data| + k], FRESH.idCounter + k, calls[k], toDouble);
    }
  }
}
