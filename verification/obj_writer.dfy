/** OBJWriter: one Wavefront OBJ file per pair, named by a running counter,
    holding both tetrahedra's vertex and face lines. */
module ObjWriter {
  import opened Geometry
  import opened Errors
  import Decimal
  import Text

  // The face table.

  /** A table of four triangles over the vertices 0..3, each with three distinct corners. */
  predicate IsFaceTable(faces: seq<seq<nat>>) {
    && |faces| == 4
    && forall k :: 0 <= k < 4 ==>
         && |faces[k]| == 3
         && (forall r :: 0 <= r < 3 ==> faces[k][r] < 4)
         && faces[k][0] != faces[k][1] && faces[k][1] != faces[k][2] && faces[k][0] != faces[k][2]
  }

  type FaceTable = faces: seq<seq<nat>> | IsFaceTable(faces) witness [[0, 1, 2], [0, 2, 3], [0, 3, 1], [1, 2, 3]]

  /** Line 34 of OBJWriter.cpp: the four triangles of a tetrahedron by vertex number. */
  const SOURCE_FACES: FaceTable := [[0, 1, 2], [0, 2, 3], [0, 3, 1], [1, 2, 3]]

  /** The same four triangles with the last one wound the other way round, so
      that every face is oriented consistently with its neighbours. */
  const FACES: FaceTable := [[0, 1, 2], [0, 2, 3], [0, 3, 1], [1, 3, 2]]

  /** Whether triangle f has v as a corner. */
  predicate Has(f: seq<nat>, v: nat)
    requires |f| == 3
  {
    f[0] == v || f[1] == v || f[2] == v
  }

  /** How many of the faces contain vertex v. */
  function FacesWith(faces: seq<seq<nat>>, v: nat): nat
    requires forall k :: 0 <= k < |faces| ==> |faces[k]| == 3
  {
    if |faces| == 0 then 0 else (if Has(faces[0], v) then 1 else 0) + FacesWith(faces[1..], v)
  }

  /** How many of the faces contain both ends of the edge {a, b}. */
  function FacesWithEdge(faces: seq<seq<nat>>, a: nat, b: nat): nat
    requires forall k :: 0 <= k < |faces| ==> |faces[k]| == 3
  {
    if |faces| == 0 then 0 else (if Has(faces[0], a) && Has(faces[0], b) then 1 else 0) + FacesWithEdge(faces[1..], a, b)
  }

  /** Whether face f runs from a straight to b (b follows a cyclically). */
  predicate Runs(f: seq<nat>, a: nat, b: nat)
    requires |f| == 3
  {
    (f[0] == a && f[1] == b) || (f[1] == a && f[2] == b) || (f[2] == a && f[0] == b)
  }

  /** How many faces run along the directed edge a -> b. */
  function FacesAlong(faces: seq<seq<nat>>, a: nat, b: nat): nat
    requires forall k :: 0 <= k < |faces| ==> |faces[k]| == 3
  {
    if |faces| == 0 then 0 else (if Runs(faces[0], a, b) then 1 else 0) + FacesAlong(faces[1..], a, b)
  }

  /** The vertex a face leaves out. */
  function Omitted(f: seq<nat>): (v: nat)
    requires |f| == 3 && forall r :: 0 <= r < 3 ==> f[r] < 4
    ensures v < 4
  {
    if !Has(f, 0) then 0 else if !Has(f, 1) then 1 else if !Has(f, 2) then 2 else 3
  }

  /** Counting over four faces, face by face. */
  lemma CountFourFaces(faces: seq<seq<nat>>, a: nat, b: nat)
    requires IsFaceTable(faces)
    ensures FacesWith(faces, a)
      == (if Has(faces[0], a) then 1 else 0) + (if Has(faces[1], a) then 1 else 0)
       + (if Has(faces[2], a) then 1 else 0) + (if Has(faces[3], a) then 1 else 0)
    ensures FacesWithEdge(faces, a, b)
      == (if Has(faces[0], a) && Has(faces[0], b) then 1 else 0) + (if Has(faces[1], a) && Has(faces[1], b) then 1 else 0)
       + (if Has(faces[2], a) && Has(faces[2], b) then 1 else 0) + (if Has(faces[3], a) && Has(faces[3], b) then 1 else 0)
    ensures FacesAlong(faces, a, b)
      == (if Runs(faces[0], a, b) then 1 else 0) + (if Runs(faces[1], a, b) then 1 else 0)
       + (if Runs(faces[2], a, b) then 1 else 0) + (if Runs(faces[3], a, b) then 1 else 0)
  {
    var f1 := faces[1..];
    var f2 := f1[1..];
    var f3 := f2[1..];
    assert f1[0] == faces[1] && f2[0] == faces[2] && f3[0] == faces[3] && f3[1..] == [];
    assert FacesWith(f3, a) == (if Has(faces[3], a) then 1 else 0);
    assert FacesWith(f2, a) == (if Has(faces[2], a) then 1 else 0) + FacesWith(f3, a);
    assert FacesWith(f1, a) == (if Has(faces[1], a) then 1 else 0) + FacesWith(f2, a);
    assert FacesWithEdge(f3, a, b) == (if Has(faces[3], a) && Has(faces[3], b) then 1 else 0);
    assert FacesWithEdge(f2, a, b) == (if Has(faces[2], a) && Has(faces[2], b) then 1 else 0) + FacesWithEdge(f3, a, b);
    assert FacesWithEdge(f1, a, b) == (if Has(faces[1], a) && Has(faces[1], b) then 1 else 0) + FacesWithEdge(f2, a, b);
    assert FacesAlong(f3, a, b) == (if Runs(faces[3], a, b) then 1 else 0);
    assert FacesAlong(f2, a, b) == (if Runs(faces[2], a, b) then 1 else 0) + FacesAlong(f3, a, b);
    assert FacesAlong(f1, a, b) == (if Runs(faces[1], a, b) then 1 else 0) + FacesAlong(f2, a, b);
  }

  /** Both tables are a tetrahedron's boundary: each vertex lies on three faces, */
  lemma VerticesOnThreeFaces(faces: seq<seq<nat>>)
    requires faces == SOURCE_FACES || faces == FACES
    ensures IsFaceTable(faces)
    ensures forall v :: 0 <= v < 4 ==> FacesWith(faces, v) == 3
  {
    assert IsFaceTable(faces);
    forall v | 0 <= v < 4
      ensures FacesWith(faces, v) == 3
    {
      CountFourFaces(faces, v, v);
    }
  }

  /** each of the six edges on two faces, */
  lemma EdgesOnTwoFaces(faces: seq<seq<nat>>)
    requires faces == SOURCE_FACES || faces == FACES
    ensures forall a, b :: 0 <= a < b < 4 ==> FacesWithEdge(faces, a, b) == 2
  {
    assert IsFaceTable(faces);
    forall a, b | 0 <= a < b < 4
      ensures FacesWithEdge(faces, a, b) == 2
    {
      CountFourFaces(faces, a, b);
    }
  }

  /** and each face leaves out a different vertex. */
  lemma FacesOmitDistinctVertices(faces: seq<seq<nat>>)
    requires faces == SOURCE_FACES || faces == FACES
    ensures IsFaceTable(faces)
    ensures forall k, l :: 0 <= k < l < 4 ==> Omitted(faces[k]) != Omitted(faces[l])
  {
    assert IsFaceTable(faces);
    assert Omitted(faces[0]) == 3 && Omitted(faces[1]) == 1 && Omitted(faces[2]) == 2 && Omitted(faces[3]) == 0;
  }

  /** In a consistently oriented closed surface every edge is run along once
      in each direction. In the source's table the edge 1 -> 2 is run along
      twice in the same direction, by the faces (0,1,2) and (1,2,3). */
  lemma SourceFacesMisoriented()
    ensures FacesAlong(SOURCE_FACES, 1, 2) == 2
    ensures FacesAlong(SOURCE_FACES, 2, 1) == 0
  {
    CountFourFaces(SOURCE_FACES, 1, 2);
    CountFourFaces(SOURCE_FACES, 2, 1);
  }

  /** The corrected table runs along every directed edge exactly once. */
  lemma FacesOriented()
    ensures forall a, b :: 0 <= a < 4 && 0 <= b < 4 && a != b ==> FacesAlong(FACES, a, b) == 1
  {
    assert IsFaceTable(FACES);
    forall a, b | 0 <= a < 4 && 0 <= b < 4 && a != b
      ensures FacesAlong(FACES, a, b) == 1
    {
      CountFourFaces(FACES, a, b);
    }
  }

  /** The correction changes only the winding of the last triangle. */
  lemma CorrectionReversesLastFace()
    ensures FACES[..3] == SOURCE_FACES[..3]
    ensures FACES[3] == [SOURCE_FACES[3][0], SOURCE_FACES[3][2], SOURCE_FACES[3][1]]
  {
  }

  // File names.

  const NAME_PREFIX_LENGTH: nat := 17

  /** "tetrahedron_pair_", the counter zero-filled to at least five digits,
      ".obj": the digits between prefix and extension read back as the counter. */
  function FileName(counter: nat): (name: string)
    ensures NAME_PREFIX_LENGTH + 5 + 4 <= |name|
    ensures name[..NAME_PREFIX_LENGTH] == "tetrahedron_pair_" && name[|name| - 4..] == ".obj"
    ensures var digits := name[NAME_PREFIX_LENGTH..|name| - 4];
      Decimal.AllDigits(digits) && Decimal.ParseNat(digits) == counter
  {
    Text.Framed("tetrahedron_pair_", Decimal.ZeroPad(counter, 5), ".obj");
    "tetrahedron_pair_" + Decimal.ZeroPad(counter, 5) + ".obj"
  }

  /** Distinct counters name distinct files. */
  lemma FileNameInjective(a: nat, b: nat)
    requires FileName(a) == FileName(b)
    ensures a == b
  {
    var name := FileName(a);
    assert Decimal.ParseNat(name[NAME_PREFIX_LENGTH..|name| - 4]) == a;
  }

  lemma FiveDigits(n: nat)
    requires n < 100000
    ensures |Decimal.ZeroPad(n, 5)| == 5
  {
    assert Decimal.Pow10(5) == 100000 by {
      assert Decimal.Pow10(1) == 10 && Decimal.Pow10(2) == 100 && Decimal.Pow10(3) == 1000;
    }
    Decimal.NatToStringLength(n, 5);
  }

  lemma Associate(p: string, x: string, y: string)
    ensures p + x + y == p + (x + y)
  {
  }

  /** Up to 99999 the names sort in counter order, so a directory listing
      shows the files in the order they were written. */
  lemma FileNamesSortByCounter(a: nat, b: nat)
    requires a < b < 100000
    ensures Decimal.LexLess(FileName(a), FileName(b))
  {
    var da, db := Decimal.ZeroPad(a, 5), Decimal.ZeroPad(b, 5);
    FiveDigits(a);
    FiveDigits(b);
    Decimal.DigitOrderIsLexOrder(da, db);
    Decimal.LexLessExtend(da, db, ".obj", ".obj");
    Decimal.LexLessCommonPrefix("tetrahedron_pair_", da + ".obj", db + ".obj");
    Associate("tetrahedron_pair_", da, ".obj");
    Associate("tetrahedron_pair_", db, ".obj");
  }

  lemma SixDigitText()
    ensures Decimal.ZeroPad(100000, 5) == "100000"
  {
    assert Decimal.NatToString(1) == "1";
    assert Decimal.NatToString(10) == "10";
    assert Decimal.NatToString(100) == "100";
    assert Decimal.NatToString(1000) == "1000";
    assert Decimal.NatToString(10000) == "10000";
    assert Decimal.NatToString(100000) == "100000";
  }

  lemma FiveNinesText()
    ensures Decimal.ZeroPad(99999, 5) == "99999"
  {
    assert Decimal.NatToString(9) == "9";
    assert Decimal.NatToString(99) == "99";
    assert Decimal.NatToString(999) == "999";
    assert Decimal.NatToString(9999) == "9999";
    assert Decimal.NatToString(99999) == "99999";
  }

  /** Names compare as their zero-filled counters followed by ".obj" do. */
  lemma NameOrder(a: nat, b: nat)
    requires Decimal.LexLess(Decimal.ZeroPad(a, 5) + ".obj", Decimal.ZeroPad(b, 5) + ".obj")
    ensures Decimal.LexLess(FileName(a), FileName(b))
  {
    var da, db := Decimal.ZeroPad(a, 5), Decimal.ZeroPad(b, 5);
    Decimal.LexLessCommonPrefix("tetrahedron_pair_", da + ".obj", db + ".obj");
    Associate("tetrahedron_pair_", da, ".obj");
    Associate("tetrahedron_pair_", db, ".obj");
  }

  /** Names whose zero-filled counters differ in the first digit sort by it. */
  lemma FirstDigitDecides(a: nat, b: nat)
    requires Decimal.ZeroPad(a, 5)[0] < Decimal.ZeroPad(b, 5)[0]
    ensures Decimal.LexLess(FileName(a), FileName(b))
  {
    var x, y := Decimal.ZeroPad(a, 5) + ".obj", Decimal.ZeroPad(b, 5) + ".obj";
    assert x[0] == Decimal.ZeroPad(a, 5)[0] && y[0] == Decimal.ZeroPad(b, 5)[0];
    NameOrder(a, b);
  }

  /** From the six-digit counter on the order breaks: the 100000th file sorts
      before the 99999th. */
  lemma SixDigitNameSortsFirst()
    ensures Decimal.LexLess(FileName(100000), FileName(99999))
  {
    SixDigitText();
    FiveNinesText();
    FirstDigitDecides(100000, 99999);
  }

  // The file's lines.

  /** One line of an OBJ file: a comment, a vertex, or a face by 1-based vertex indices. */
  datatype ObjLine = Comment(text: string) | Vertex(p: Point3) | Face(indices: seq<int>)

  /** The indices of a face line, each followed by one space. */
  function IndexText(indices: seq<int>): string {
    if |indices| == 0 then "" else Decimal.IntToString(indices[0]) + " " + IndexText(indices[1..])
  }

  /** The text of a line; coordinates are printed by render. */
  function LineText(line: ObjLine, render: real -> string): string {
    match line
    case Comment(text) => "# " + text + "\n"
    case Vertex(p) => "v " + render(p.x) + " " + render(p.y) + " " + render(p.z) + "\n"
    case Face(indices) => "f " + IndexText(indices) + "\n"
  }

  function FileText(lines: seq<ObjLine>, render: real -> string): string {
    if |lines| == 0 then "" else LineText(lines[0], render) + FileText(lines[1..], render)
  }

  /** The text of consecutive runs of lines is the text of each run in turn. */
  lemma {:induction false} FileTextConcat(a: seq<ObjLine>, b: seq<ObjLine>, render: real -> string)
    ensures FileText(a + b, render) == FileText(a, render) + FileText(b, render)
  {
    if |a| == 0 {
      assert a + b == b;
    } else {
      assert (a + b)[0] == a[0];
      assert (a + b)[1..] == a[1..] + b;
      FileTextConcat(a[1..], b, render);
    }
  }

  /** A triangle's line: "f", then each index followed by one space, so the
      line ends in a space before its newline. */
  lemma FaceLineText(indices: seq<int>, render: real -> string)
    requires |indices| == 3
    ensures LineText(Face(indices), render)
      == "f " + Decimal.IntToString(indices[0]) + " " + Decimal.IntToString(indices[1]) + " "
         + Decimal.IntToString(indices[2]) + " " + "\n"
  {
    var i0, i1, i2 := Decimal.IntToString(indices[0]), Decimal.IntToString(indices[1]), Decimal.IntToString(indices[2]);
    assert indices[1..][0] == indices[1] && indices[1..][1..] == indices[2..];
    assert indices[2..][0] == indices[2] && indices[2..][1..] == [];
    assert IndexText(indices[2..]) == i2 + " ";
    assert IndexText(indices[1..]) == i1 + " " + (i2 + " ");
    assert IndexText(indices) == i0 + " " + (i1 + " " + (i2 + " "));
  }

  /** writeTetrahedron with a given face table (the program passes
      SOURCE_FACES): the four vertices in order, then one face line per entry
      of the table, each index shifted by the offset. Every face line is a
      triangle of three distinct vertices of this block, offset..offset+3. */
  function TetrahedronLines(t: Tetrahedron, offset: int, faces: FaceTable): (lines: seq<ObjLine>)
    ensures |lines| == 8
    ensures forall k :: 0 <= k < 8 ==> (lines[k].Vertex? <==> k < 4) && (lines[k].Face? <==> 4 <= k)
    ensures forall k :: 4 <= k < 8 ==> var ix := lines[k].indices;
      && |ix| == 3
      && (forall r :: 0 <= r < 3 ==> offset <= ix[r] <= offset + 3)
      && ix[0] != ix[1] && ix[1] != ix[2] && ix[0] != ix[2]
  {
    [Vertex(t.v0), Vertex(t.v1), Vertex(t.v2), Vertex(t.v3)]
    + seq(4, k requires 0 <= k < 4 => Face(seq(3, r requires 0 <= r < 3 => faces[k][r] + offset)))
  }

  function StatusText(intersectionStatus: bool): string {
    if intersectionStatus then "1" else "0"
  }

  /** The lines of one pair's file: a title, each tetrahedron under its own
      comment with offsets 1 and 5, and the intersection status last. */
  function EntryLines(t1: Tetrahedron, t2: Tetrahedron, intersectionStatus: bool, faces: FaceTable): (lines: seq<ObjLine>)
    ensures |lines| == 20
  {
    [Comment("Tetrahedrons pair"), Comment("Tetrahedron 1")]
    + TetrahedronLines(t1, 1, faces)
    + [Comment("Tetrahedron 2")]
    + TetrahedronLines(t2, 5, faces)
    + [Comment("Intersection status: " + StatusText(intersectionStatus))]
  }

  /** The counter shared by every OBJ writer (a static member) and the file a call writes. */
  datatype ObjFile = ObjFile(path: string, lines: seq<ObjLine>)
  datatype Written = Written(fileCounter: nat, file: Result<ObjFile>)

  /** OBJWriter::writeEntry. The counter is incremented before the name is
      formed, and stays incremented when the file cannot be opened; canOpen
      stands for the outcome of opening the file. */
  function WriteEntry(fileCounter: nat, baseDir: string, t1: Tetrahedron, t2: Tetrahedron,
                      intersectionStatus: bool, canOpen: bool): (w: Written)
    ensures w.fileCounter == fileCounter + 1
    ensures w.file.Ok? <==> canOpen
    ensures w.file.Ok? ==> w.file.value.path == baseDir + "/" + FileName(w.fileCounter)
    ensures w.file.Err? ==> w.file.error == RuntimeError("Unable to open file: " + baseDir + FileName(w.fileCounter))
    ensures w.file.Ok? ==> w.file.value.lines == EntryLines(t1, t2, intersectionStatus, SOURCE_FACES)
  {
    var counter := fileCounter + 1;
    var name := FileName(counter);
    if canOpen then Written(counter, Ok(ObjFile(baseDir + "/" + name, EntryLines(t1, t2, intersectionStatus, SOURCE_FACES))))
    else Written(counter, Err(RuntimeError("Unable to open file: " + baseDir + name)))
  }

  lemma ZeroPadOne()
    ensures Decimal.ZeroPad(1, 5) == "00001"
  {
    Decimal.SingleDigit(1);
    assert Decimal.Zeros(4) == "0000" by {
      assert Decimal.Zeros(1) == "0" && Decimal.Zeros(2) == "00" && Decimal.Zeros(3) == "000";
    }
  }

  /** The static counter starts at 0, so the first file written is number 00001. */
  lemma FirstFileIsNumberOne(baseDir: string, t1: Tetrahedron, t2: Tetrahedron, intersectionStatus: bool)
    ensures WriteEntry(0, baseDir, t1, t2, intersectionStatus, true).file.value.path
      == baseDir + "/" + "tetrahedron_pair_" + "00001" + ".obj"
  {
    var w := WriteEntry(0, baseDir, t1, t2, intersectionStatus, true);
    assert w.file.value.path == baseDir + "/" + FileName(1);
    ZeroPadOne();
  }

  /** Two successive calls, whether or not their files open, name two
      different files, and below 100000 the later name sorts after the earlier. */
  lemma SuccessiveCallsNameNewFiles(fileCounter: nat, baseDir: string,
                                    t1: Tetrahedron, t2: Tetrahedron, status1: bool, canOpen1: bool,
                                    u1: Tetrahedron, u2: Tetrahedron, status2: bool, canOpen2: bool)
    ensures var w1 := WriteEntry(fileCounter, baseDir, t1, t2, status1, canOpen1);
      var w2 := WriteEntry(w1.fileCounter, baseDir, u1, u2, status2, canOpen2);
      && w2.fileCounter == fileCounter + 2
      && FileName(w1.fileCounter) != FileName(w2.fileCounter)
      && (w2.fileCounter < 100000 ==> Decimal.LexLess(FileName(w1.fileCounter), FileName(w2.fileCounter)))
  {
    var a, b := fileCounter + 1, fileCounter + 2;
    if FileName(a) == FileName(b) {
      FileNameInjective(a, b);
    }
    if b < 100000 {
      FileNamesSortByCounter(a, b);
    }
  }

  // Reading the lines back.

  /** The points of the vertex lines, in file order. */
  function VertexPoints(lines: seq<ObjLine>): seq<Point3> {
    if |lines| == 0 then []
    else (if lines[0].Vertex? then [lines[0].p] else []) + VertexPoints(lines[1..])
  }

  /** The index lists of the face lines, in file order. */
  function FaceIndices(lines: seq<ObjLine>): seq<seq<int>> {
    if |lines| == 0 then []
    else (if lines[0].Face? then [lines[0].indices] else []) + FaceIndices(lines[1..])
  }

  lemma {:induction false} ReadConcat(a: seq<ObjLine>, b: seq<ObjLine>)
    ensures VertexPoints(a + b) == VertexPoints(a) + VertexPoints(b)
    ensures FaceIndices(a + b) == FaceIndices(a) + FaceIndices(b)
  {
    if |a| > 0 {
      assert (a + b)[1..] == a[1..] + b;
      ReadConcat(a[1..], b);
    } else {
      assert a + b == b;
    }
  }

  function Corners(t: Tetrahedron): seq<Point3> {
    [t.v0, t.v1, t.v2, t.v3]
  }

  lemma ReadTetrahedron(t: Tetrahedron, offset: int, faces: FaceTable)
    ensures VertexPoints(TetrahedronLines(t, offset, faces)) == Corners(t)
    ensures |FaceIndices(TetrahedronLines(t, offset, faces))| == 4
    ensures forall k :: 0 <= k < 4 ==> |FaceIndices(TetrahedronLines(t, offset, faces))[k]| == 3
    ensures forall k, r :: 0 <= k < 4 && 0 <= r < 3 ==>
      FaceIndices(TetrahedronLines(t, offset, faces))[k][r] == faces[k][r] + offset
  {
    var lines := TetrahedronLines(t, offset, faces);
    var vs, fs := lines[..4], lines[4..];
    assert lines == vs + fs;
    ReadConcat(vs, fs);
    ReadFour(vs);
    ReadFour(fs);
  }

  /** Reading four lines, one at a time. */
  lemma ReadFour(lines: seq<ObjLine>)
    requires |lines| == 4
    ensures VertexPoints(lines) == VertexPoints([lines[0]]) + VertexPoints([lines[1]]) + VertexPoints([lines[2]]) + VertexPoints([lines[3]])
    ensures FaceIndices(lines) == FaceIndices([lines[0]]) + FaceIndices([lines[1]]) + FaceIndices([lines[2]]) + FaceIndices([lines[3]])
  {
    assert lines == [lines[0]] + [lines[1]] + [lines[2]] + [lines[3]];
    ReadConcat([lines[0]] + [lines[1]] + [lines[2]], [lines[3]]);
    ReadConcat([lines[0]] + [lines[1]], [lines[2]]);
    ReadConcat([lines[0]], [lines[1]]);
  }

  /** Reading a pair's lines: T1's block, then T2's; the comments add nothing. */
  lemma ReadEntryLines(t1: Tetrahedron, t2: Tetrahedron, intersectionStatus: bool, faces: FaceTable)
    ensures var lines := EntryLines(t1, t2, intersectionStatus, faces);
      && VertexPoints(lines) == VertexPoints(TetrahedronLines(t1, 1, faces)) + VertexPoints(TetrahedronLines(t2, 5, faces))
      && FaceIndices(lines) == FaceIndices(TetrahedronLines(t1, 1, faces)) + FaceIndices(TetrahedronLines(t2, 5, faces))
  {
    var head := [Comment("Tetrahedrons pair"), Comment("Tetrahedron 1")];
    var b1, b2 := TetrahedronLines(t1, 1, faces), TetrahedronLines(t2, 5, faces);
    var mid := [Comment("Tetrahedron 2")];
    var tail := [Comment("Intersection status: " + StatusText(intersectionStatus))];
    ReadConcat(head, b1);
    ReadConcat(head + b1, mid);
    ReadConcat(head + b1 + mid, b2);
    ReadConcat(head + b1 + mid + b2, tail);
    assert VertexPoints(head) == [] && FaceIndices(head) == [] by {
      assert head[1..][1..] == [];
    }
  }

  /** The file's vertex lines are T1's corners then T2's, and the f-th face
      line's indices, read as 1-based positions in that vertex list, name the
      corners of face f mod 4 of the table on its own tetrahedron: T1's faces
      use 1..4 and T2's 5..8. This holds for the table the program writes and
      for the corrected one alike. */
  lemma FacesNameOwnCorners(t1: Tetrahedron, t2: Tetrahedron, intersectionStatus: bool, faces: FaceTable)
    ensures var lines := EntryLines(t1, t2, intersectionStatus, faces);
      && VertexPoints(lines) == Corners(t1) + Corners(t2)
      && |FaceIndices(lines)| == 8
      && (forall f :: 0 <= f < 8 ==> |FaceIndices(lines)[f]| == 3)
      && forall f, r :: 0 <= f < 8 && 0 <= r < 3 ==>
           var i := FaceIndices(lines)[f][r];
           && (if f < 4 then 1 <= i <= 4 else 5 <= i <= 8)
           && VertexPoints(lines)[i - 1] == Corners(if f < 4 then t1 else t2)[faces[f % 4][r]]
  {
    var lines := EntryLines(t1, t2, intersectionStatus, faces);
    ReadEntryLines(t1, t2, intersectionStatus, faces);
    ReadTetrahedron(t1, 1, faces);
    ReadTetrahedron(t2, 5, faces);
    var faces1, faces2 := FaceIndices(TetrahedronLines(t1, 1, faces)), FaceIndices(TetrahedronLines(t2, 5, faces));
    var vs := VertexPoints(lines);
    assert FaceIndices(lines) == faces1 + faces2;
    assert vs == Corners(t1) + Corners(t2);
    forall f, r | 0 <= f < 8 && 0 <= r < 3
      ensures |FaceIndices(lines)[f]| == 3
      ensures var i := FaceIndices(lines)[f][r];
        && (if f < 4 then 1 <= i <= 4 else 5 <= i <= 8)
        && vs[i - 1] == Corners(if f < 4 then t1 else t2)[faces[f % 4][r]]
    {
      var c := faces[f % 4][r];
      assert c < 4;
      if f < 4 {
        assert FaceIndices(lines)[f] == faces1[f];
        assert faces1[f][r] == c + 1;
        assert vs[c] == Corners(t1)[c];
      } else {
        assert f % 4 == f - 4;
        assert FaceIndices(lines)[f] == faces2[f - 4];
        assert faces2[f - 4][r] == c + 5;
        assert vs[c + 4] == Corners(t2)[c];
      }
    }
  }

  /** The program's file and the corrected one differ only in the last face
      line of each tetrahedron: T1's is "f 2 3 4" as written and "f 2 4 3"
      corrected, T2's "f 6 7 8" and "f 6 8 7". */
  lemma WrittenLastFaces(t1: Tetrahedron, t2: Tetrahedron, intersectionStatus: bool)
    ensures var written, corrected := EntryLines(t1, t2, intersectionStatus, SOURCE_FACES), EntryLines(t1, t2, intersectionStatus, FACES);
      && (forall k :: 0 <= k < 20 && k != 9 && k != 18 ==> written[k] == corrected[k])
      && written[9] == Face([2, 3, 4]) && corrected[9] == Face([2, 4, 3])
      && written[18] == Face([6, 7, 8]) && corrected[18] == Face([6, 8, 7])
  {
    BlockLastFace(t1, 1);
    BlockLastFace(t2, 5);
    var w1, c1 := TetrahedronLines(t1, 1, SOURCE_FACES), TetrahedronLines(t1, 1, FACES);
    var w2, c2 := TetrahedronLines(t2, 5, SOURCE_FACES), TetrahedronLines(t2, 5, FACES);
    var head := [Comment("Tetrahedrons pair"), Comment("Tetrahedron 1")];
    var mid := [Comment("Tetrahedron 2")];
    var tail := [Comment("Intersection status: " + StatusText(intersectionStatus))];
    var written, corrected := EntryLines(t1, t2, intersectionStatus, SOURCE_FACES), EntryLines(t1, t2, intersectionStatus, FACES);
    assert written == head + w1 + mid + w2 + tail;
    assert corrected == head + c1 + mid + c2 + tail;
    assert written[9] == w1[7] && corrected[9] == c1[7];
    assert written[18] == w2[7] && corrected[18] == c2[7];
    forall k | 0 <= k < 20 && k != 9 && k != 18
      ensures written[k] == corrected[k]
    {
      if 2 <= k < 10 {
        assert written[k] == w1[k - 2] && corrected[k] == c1[k - 2];
      } else if 11 <= k < 19 {
        assert written[k] == w2[k - 11] && corrected[k] == c2[k - 11];
      }
    }
  }

  /** Within one block the two tables give the same lines but the last. */
  lemma BlockLastFace(t: Tetrahedron, offset: int)
    ensures var w, c := TetrahedronLines(t, offset, SOURCE_FACES), TetrahedronLines(t, offset, FACES);
      && (forall k :: 0 <= k < 7 ==> w[k] == c[k])
      && w[7] == Face([offset + 1, offset + 2, offset + 3])
      && c[7] == Face([offset + 1, offset + 3, offset + 2])
  {
    var w, c := TetrahedronLines(t, offset, SOURCE_FACES), TetrahedronLines(t, offset, FACES);
    assert forall k :: 0 <= k < 7 ==> w[k] == c[k];
    assert w[7].indices == [offset + 1, offset + 2, offset + 3];
    assert c[7].indices == [offset + 1, offset + 3, offset + 2];
  }

  /** The text of a pair's file: the title and T1's comment, T1's eight lines,
      T2's comment and lines, and the status comment last. */
  lemma EntryText(t1: Tetrahedron, t2: Tetrahedron, intersectionStatus: bool, faces: FaceTable, render: real -> string)
    ensures FileText(EntryLines(t1, t2, intersectionStatus, faces), render)
      == "# " + "Tetrahedrons pair" + "\n" + "# " + "Tetrahedron 1" + "\n" + FileText(TetrahedronLines(t1, 1, faces), render)
         + ("# " + "Tetrahedron 2" + "\n") + FileText(TetrahedronLines(t2, 5, faces), render)
         + ("# " + ("Intersection status: " + StatusText(intersectionStatus)) + "\n")
  {
    var head := [Comment("Tetrahedrons pair"), Comment("Tetrahedron 1")];
    var b1, b2 := TetrahedronLines(t1, 1, faces), TetrahedronLines(t2, 5, faces);
    var mid := [Comment("Tetrahedron 2")];
    var tail := [Comment("Intersection status: " + StatusText(intersectionStatus))];
    assert EntryLines(t1, t2, intersectionStatus, faces) == head + b1 + mid + b2 + tail;
    FiveRuns(head, b1, mid, b2, tail, render);
    CommentsText("Tetrahedrons pair", "Tetrahedron 1", render);
    CommentText("Tetrahedron 2", render);
    CommentText("Intersection status: " + StatusText(intersectionStatus), render);
  }

  lemma FiveRuns(a: seq<ObjLine>, b: seq<ObjLine>, c: seq<ObjLine>, d: seq<ObjLine>, e: seq<ObjLine>, render: real -> string)
    ensures FileText(a + b + c + d + e, render)
      == FileText(a, render) + FileText(b, render) + FileText(c, render) + FileText(d, render) + FileText(e, render)
  {
    FileTextConcat(a, b, render);
    FileTextConcat(a + b, c, render);
    FileTextConcat(a + b + c, d, render);
    FileTextConcat(a + b + c + d, e, render);
  }

  lemma CommentText(text: string, render: real -> string)
    ensures FileText([Comment(text)], render) == "# " + text + "\n"
  {
    assert [Comment(text)][1..] == [];
  }

  lemma CommentsText(text1: string, text2: string, render: real -> string)
    ensures FileText([Comment(text1), Comment(text2)], render) == "# " + text1 + "\n" + "# " + text2 + "\n"
  {
    assert [Comment(text1), Comment(text2)][1..] == [Comment(text2)];
    CommentText(text2, render);
  }

  /** The tenth line the program writes, T1's last face, reads "f 2 3 4 " in full. */
  lemma WrittenLastFaceText(t1: Tetrahedron, t2: Tetrahedron, intersectionStatus: bool, render: real -> string)
    ensures LineText(EntryLines(t1, t2, intersectionStatus, SOURCE_FACES)[9], render) == "f 2 3 4 \n"
  {
    WrittenLastFaces(t1, t2, intersectionStatus);
    FaceLineText([2, 3, 4], render);
    Decimal.SingleDigit(2);
    Decimal.SingleDigit(3);
    Decimal.SingleDigit(4);
  }
}
