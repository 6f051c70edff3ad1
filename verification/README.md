# Tetrahedron pair generator: a verified model of its core

The generator draws pairs of random tetrahedra, classifies how they intersect,
and writes them to CSV, JSON or OBJ datasets. This project models the parts of
it that decide things, as pure Dafny functions and methods, and proves what
they promise:

- **The intersection classifier** (`getIntersectionClassification`,
  `getIntersectionShape`). It is decided from what the exact CGAL kernel
  answers for one pair of tetrahedra (`GeometryUtils.KernelView`). Those
  answers are: whether the convex hulls are closed, whether the Nef polyhedra
  and their intersection are empty, whether the converted mesh is valid, and
  the intersection's vertex list with its edge and facet counts. The model
  also gives an independent description of the possible shapes (point,
  segment, polygon, polyhedron), and the classifier is proved to name each one
  correctly.
- **The pair factory** (`TetrahedronFactory.cpp`). It covers the type dispatch
  and the three do-while rejection loops. The kernel's `is_degenerate` and
  `do_intersect` are uninterpreted functions. The shared random generator is a
  stream of values in [0, 1).
- **Configuration validation** (`Configuration::validateConfig`): the range
  checks in source order, then the correction of the distribution sum.
- **The writers.**
  - Both `formatFilename` variants: the CSV writer's truncating one and the
    shared rounding one.
  - `createWriter`.
  - The CSV header line and data row, including a CSV reader's view of a row.
  - The OBJ file name and its vertex and face lines.
  - The JSON records and their ids.

Files: `errors.dfy` (exceptions as values), `decimal.dfy` (std::to_string and
zero-filled decimal text, with reading back), `text.dfy` (comma joining and
CSV field splitting), `geometry.dfy`, `geometry_utils.dfy`,
`tetrahedron_factory.dfy`, `config.dfy`, `naming.dfy`, `csv_writer.dfy`,
`base_writer.dfy`, `obj_writer.dfy`, `json_writer.dfy`.

Deliberate differences between the source and the model:

- **OBJ face table.** The writer is modelled with the table the source
  writes, `(0,1,2) (0,2,3) (0,3,1) (1,2,3)`. The read-back lemmas take the
  table as a parameter, so they hold for it and for the consistently wound
  table of "## Findings" alike.
- **Point, segment and polygon generators.** The source has no working
  generator for these classes: types 2 to 4 dispatch to functions with empty
  bodies. The model returns a `Stub` outcome for them.
- **CSV writer precision.** `createWriter` passes a precision to the CSV
  writer, but the CSV writer's constructor in `src/CSVWriter.cpp` takes only a
  file name. The model records the precision in the `Csv` writer value and
  gives it no further meaning.
- **Sum deviation message.** The message says "within 1% of 100", but the
  check allows a deviation of 0.5. The model keeps both as written.

## Model

| member | source | states |
|---|---|---|
| Geometry.FromOrdinal | headers/Types.h:48-54 | The enumerator at position k has ordinal k, so the five classes are numbered 0..4 in declaration order and the numbering is one-to-one |
| GeometryUtils.EulerCharacteristic | src/GeometryUtils.cpp:59 | V - E + F computed on size_t and stored in an int always lies in the int range, and for counts below 2^30 it is exactly V - E + F |
| GeometryUtils.Classify | src/GeometryUtils.cpp:29-69 | Each outcome holds exactly when its conditions do, in check order: an open hull throws "Mesh is open"; an empty operand or empty intersection gives None; an invalid mesh throws "Conversion Failed" before counting; one vertex gives Point whatever E and F are; two vertices and one edge give Segment; with F > 0, characteristic 1 gives Polygon and 2 gives Polyhedron; every other count throws "Something Went Wrong!" |
| GeometryUtils.ClassifyOutcomes | src/GeometryUtils.cpp:29-87 | The classifier fails only with one of the three runtime errors it names |
| GeometryUtils.ClassifiesEveryShape | src/GeometryUtils.cpp:52-65 | For every geometrically possible shape (point; segment; convex n-gon reported as one facet; convex polyhedron satisfying Euler's formula) whose boundary complex the kernel reports, the classifier returns that shape's class |
| GeometryUtils.IntersectionShape | src/GeometryUtils.cpp:4-27 | Disjoint tetrahedra or an empty Nef intersection give the empty list; an open hull or an invalid mesh give the matching error; otherwise the result is exactly the mesh's vertex points in iteration order |
| GeometryUtils.ShapeAgreesWithClass | src/GeometryUtils.cpp:4-69 | With consistent kernel answers, the shape is empty exactly when the class is None; a Point has one vertex and a Segment two; both functions raise "Conversion Failed" on the same inputs |
| TetrahedronFactory.GenerateRandomPoint | src/TetrahedronFactory.cpp:148-153 | The point's x, y and z are three consecutive draws of the generator, each in [0, 1) |
| TetrahedronFactory.RoundPairDraws | src/TetrahedronFactory.cpp:13-26 | Round n of a loop builds both tetrahedra from fresh draws: vertex i of the first uses the three draws at from + 24n + 3i, and of the second those at from + 24n + 12 + 3i |
| TetrahedronFactory.RoundPair | src/TetrahedronFactory.cpp:13-26 | Every coordinate of every vertex of the pair a round draws lies in [0, 1) |
| TetrahedronFactory.RejectionSample | src/TetrahedronFactory.cpp:13-31 | The do-while loop returns the pair of the first round that meets its exit condition, built from that round alone, and every earlier round failed it; no pair is returned only when every round within the fuel failed |
| TetrahedronFactory.CreateRandomTetrahedronPair | src/TetrahedronFactory.cpp:7-32 | A returned pair has two non-degenerate tetrahedra drawn in the last round |
| TetrahedronFactory.CreateType1TetrahedronPair | src/TetrahedronFactory.cpp:56-81 | A returned pair has two non-degenerate tetrahedra that do_intersect calls disjoint, drawn in the last round |
| TetrahedronFactory.CreateType5TetrahedronPair | src/TetrahedronFactory.cpp:95-120 | A returned pair has two non-degenerate tetrahedra that do_intersect calls intersecting, drawn in the last round |
| TetrahedronFactory.Dispatch | src/TetrahedronFactory.cpp:34-54 | Types 1..5 select the classes of ordinals 0..4; type 0 selects ordinal rand() % 5, that is type rand() % 5 + 1; every type outside 0..5 is an invalid_argument |
| TetrahedronFactory.DispatchNamesInvalidType | src/TetrahedronFactory.cpp:51-52 | The invalid_argument message is "Invalid tetrahedron type: " followed by decimal text that reads back as the offending type |
| TetrahedronFactory.CreateRandomTetrahedronPairOfType | src/TetrahedronFactory.cpp:34-54 | An invalid type fails with the dispatch error; type 1 yields a disjoint pair and type 5 an intersecting one; types 2..4 reach a generator with no body |
| Config.ValidateConfig | src/Config.cpp:30-80 | The first failing range check, in source order, decides the exception, and all of them come before the sum check. A sum more than 0.5 from 100 is refused. A sum within 1e-6 leaves the configuration unchanged. Otherwise only entry 0 changes, by 100 - sum, and over exact reals the new sum is 100 |
| Config.ValidateIdempotent | src/Config.cpp:30-80 | A configuration that validated validates again to itself |
| Naming.ExponentIsLog | src/CSVWriter.cpp:23 | The exponent, the count of decimal digits less one, is at least 6 exactly when the count is at least a million |
| Naming.Divisor | src/CSVWriter.cpp:23-29 | The divisor picked by the exponent test is a million exactly from a million on and a thousand below, and never exceeds the count |
| Naming.Suffix | src/CSVWriter.cpp:23-29 | The suffix picked by the exponent test is 'M' exactly from a million on and 'k' below |
| CsvWriter.FormatFilename | src/CSVWriter.cpp:18-40 | Every name is the base, a count and "_dataset.csv"; below 1000 the count reads back as the number of entries; from 1000 on the letter before "_dataset.csv" is 'M' exactly from a million on and 'k' below |
| CsvWriter.FormatFilenameShape | src/CSVWriter.cpp:18-40 | Below 1000 the name is the base, the full count and "_dataset.csv"; from 1000 on it is the base, the number cut to one decimal, 'k' or 'M', and "_dataset.csv" |
| CsvWriter.PrintedThenCut | src/CSVWriter.cpp:31-37 | std::to_string of n / divisor, cut one character after the first '.', is the integer part, a dot and the tenths digit of n / divisor |
| CsvWriter.TruncatedNumberIsFloor | src/CSVWriter.cpp:31-37 | The number part is digits, '.', one digit, and read as tenths it equals 10 n / divisor rounded down: truncated, not rounded, with the decimal always present |
| CsvWriter.VariantsDisagree | src/CSVWriter.cpp:31-37 | For 1999 entries the CSV writer's number part is "1.9" while the shared formatFilename's is "2" |
| CsvWriter.SmallCountsHaveDistinctNames | src/CSVWriter.cpp:20-21 | Below 1000, equal file names mean equal counts |
| CsvWriter.InitializeHeaders | src/CSVWriter.cpp:80-91 | The header list is the 26 columns: T{i}_v{v}_{x,y,z} ordered by tetrahedron, then vertex, then axis, then intersection_class and intersection_status |
| CsvWriter.WriteHeaders | src/CSVWriter.cpp:93-99 | The header line is the names joined by single commas, with no trailing comma, ended by a newline |
| CsvWriter.RowEndsWithStatus | src/CSVWriter.cpp:42-78 | A row ends with ",1" and its newline exactly when the pair intersects, and with ",0" otherwise |
| CsvWriter.PadVertices | src/CSVWriter.cpp:56 | The unsigned subtraction narrowed to int is 16 - size for every size up to 16 + 2^31 |
| CsvWriter.ShapeFieldGroups | src/CSVWriter.cpp:56-74 | The shape field lists one "(x,y,z)" group per vertex in order, then max(0, padVertices) "(-1,-1,-1)" groups, one comma between neighbours |
| CsvWriter.ShapeFieldHasSixteenGroups | src/CSVWriter.cpp:56-74 | A shape of at most 16 vertices yields exactly 16 groups |
| CsvWriter.RowIsJoin | src/CSVWriter.cpp:42-78 | A row without its newline is its 27 fields joined by commas: T1's 12 coordinates, T2's 12, the class ordinal, the quoted shape, the 0/1 flag |
| CsvWriter.RowHasOneFieldMoreThanHeader | src/CSVWriter.cpp:42-91 | A CSV reader splits a row back into exactly those 27 fields, one more than the 26 header names, so the intersection_status name heads the shape column |
| BaseWriter.RoundedTenthsIsNearest | src/BaseWriter.cpp:19-23 | setprecision(1) gives 10 n / divisor rounded down or up, within half a tenth, and the tie direction matters only at an exact half |
| BaseWriter.FormatFilename | src/BaseWriter.cpp:6-33 | Every name is the base, a count, "_dataset." and the extension; below 1000 the count reads back as the number of entries; from 1000 on the letter before "_dataset." is 'M' exactly from a million on and 'k' below |
| BaseWriter.NumberPartShape | src/BaseWriter.cpp:21-29 | A zero decimal is dropped together with its dot, any other decimal stays, and the number part never ends in ".0" |
| BaseWriter.RoundedNameNineteenNinetyNine | src/BaseWriter.cpp:6-33 | 1999 entries give the name "../output/tetrahedron_pair_2k_dataset." followed by the extension |
| BaseWriter.SmallCountsHaveDistinctNames | src/BaseWriter.cpp:8-9 | Below 1000, equal file names with the same extension mean equal counts, whatever the rounding tie directions |
| BaseWriter.FormatFilenameExtension | src/BaseWriter.cpp:6-33 | Every name is a stem, a dot and then the extension |
| BaseWriter.CreateWriter | src/BaseWriter.cpp:35-47 | "json", "csv" and "obj" select their writers and anything else gives null; the JSON and CSV writers get the name with the type as extension, and the CSV writer gets the precision |
| BaseWriter.ObjDirectoryDropsExtension | src/BaseWriter.cpp:42 | The OBJ directory is the file name with its ".obj" removed |
| ObjWriter.VerticesOnThreeFaces | src/OBJWriter.cpp:34 | In the source's face table and in the corrected one, each vertex lies on exactly three faces |
| ObjWriter.EdgesOnTwoFaces | src/OBJWriter.cpp:34 | In both tables each of the six edges lies on exactly two faces |
| ObjWriter.FacesOmitDistinctVertices | src/OBJWriter.cpp:34 | In both tables each face leaves out a different vertex |
| ObjWriter.SourceFacesMisoriented | src/OBJWriter.cpp:34 | In the source's table the directed edge 1 -> 2 is run along twice and 2 -> 1 never, so the faces are not consistently oriented |
| ObjWriter.FacesOriented | src/OBJWriter.cpp:34 | In the corrected table every directed edge is run along exactly once |
| ObjWriter.CorrectionReversesLastFace | src/OBJWriter.cpp:34 | The correction keeps the first three faces and reverses only the winding of the fourth |
| ObjWriter.FileName | src/OBJWriter.cpp:8 | A name is "tetrahedron_pair_", at least five digits and ".obj", and the digits read back as the counter |
| ObjWriter.FileNameInjective | src/OBJWriter.cpp:8 | Distinct counters give distinct file names |
| ObjWriter.FileNamesSortByCounter | src/OBJWriter.cpp:8 | Below 100000 the five-digit zero-filled names sort in counter order |
| ObjWriter.SixDigitNameSortsFirst | src/OBJWriter.cpp:8 | The 100000th name sorts before the 99999th, so the order stops at six digits |
| ObjWriter.WriteEntry | src/OBJWriter.cpp:6-26 | The counter goes up by one before naming, even when the file cannot be opened; the file is baseDir + "/" + name and holds the pair's lines with the source's face table; the error message omits that "/" |
| ObjWriter.FirstFileIsNumberOne | src/OBJWriter.cpp:4-8 | From the initial counter 0 the first file is tetrahedron_pair_00001.obj |
| ObjWriter.SuccessiveCallsNameNewFiles | src/OBJWriter.cpp:8 | Two successive calls name different files, the later sorting after the earlier below 100000 |
| ObjWriter.ReadTetrahedron | src/OBJWriter.cpp:28-42 | One tetrahedron writes its four vertices in order, then four faces whose indices are the face-table entries plus the offset, for any face table |
| ObjWriter.TetrahedronLines | src/OBJWriter.cpp:28-42 | Four vertex lines come first and four face lines after; every face line names three distinct vertices of its own block, offset..offset+3 |
| ObjWriter.FacesNameOwnCorners | src/OBJWriter.cpp:14-24 | The file's vertex lines are T1's corners then T2's; T1's faces use indices 1..4 and T2's 5..8, and each index names the corner of its own tetrahedron that the face table gives |
| ObjWriter.WrittenLastFaces | src/OBJWriter.cpp:14-42 | The written file and the consistently wound one differ only in each tetrahedron's last face line: "f 2 3 4" against "f 2 4 3", and "f 6 7 8" against "f 6 8 7" |
| ObjWriter.FaceLineText | src/OBJWriter.cpp:35-41 | A face line is "f ", each index followed by one space, then the newline, so it ends in a space |
| ObjWriter.EntryText | src/OBJWriter.cpp:14-24 | A file's text is the title and T1's comment, T1's lines, T2's comment and lines, then the intersection status comment |
| ObjWriter.WrittenLastFaceText | src/OBJWriter.cpp:34-41 | The tenth line of every file the program writes is exactly "f 2 3 4 " and a newline |
| JsonWriter.EdgesArePairs | src/JSONWriter.cpp:30 | The edge list is exactly the pairs i < j of the vertices 0..3, each listed once |
| JsonWriter.TetrahedronToJson | src/JSONWriter.cpp:27-46 | A record has the four vertices in vertex order, three coordinates each, and the fixed edge list |
| JsonWriter.WriteEntry | src/JSONWriter.cpp:17-25 | One entry is appended, the earlier ones unchanged; it takes the current id and the counter advances; the status is 1 exactly when the pair intersects |
| JsonWriter.IdsAreConsecutive | src/JSONWriter.cpp:17-25 | A sequence of calls appends one record per call in order, with consecutive ids from the counter on |
| JsonWriter.FreshIdsCountFromOne | headers/JSONWriter.h:16 | From a fresh writer the ids are 1, 2, ... in call order |
| Decimal.ZeroPad | src/OBJWriter.cpp:8 | setw(5) with fill '0' pads to at least five digits, never cuts, and reads back as the counter |
| Text.FieldsOfJoin | src/CSVWriter.cpp:42-78 | Splitting a comma-joined line at unquoted commas gives back the fields, when each is a whole field |

## Left out

- The CGAL kernel is not modelled: convex_hull_3, is_closed, the Nef polyhedra and their product, convert_to_polyhedron, is_valid_polygon_mesh, do_intersect and is_degenerate. Its answers are inputs (`KernelView`, `Kernel`).
- Random distributions are not modelled. CGAL::Random is a stream of values in [0, 1), and `rand()` is the value it returned. Random_points_in_triangle_3 and generateRandomPointOnTriangle are left out: no modelled operation uses them.
- TetrahedronFactory.RejectionSample: the source loops without bound. The model stops after `fuel` rounds with `Exhausted`, so the model says nothing about whether a loop ends.
- createType2/3/4TetrahedronPair have empty bodies, so there is no behaviour to state. The commented-out draft below them is ignored.
- CoordinateSystem, getIntersectionVolume and the other functions declared in headers/GeometryUtils.h have no definition in this source, so they are not part of this model.
- File and process I/O is not modelled: opening and closing streams, destructors, mkdir, the zip and rm commands of zipDirectory, the log file and console message of validateConfig, parsing the JSON configuration, and the JSON dump on destruction. The outcome of opening an OBJ file is the `canOpen` parameter. The CSV and JSON constructors' "Unable to open file" exceptions are left out.
- Printing of coordinates is left out. For CSV and OBJ output, `render` stands for stream output of an exact number or a double. For JSON, `toDouble` stands for CGAL::to_double.
- BaseWriter.RoundedTenthsIsNearest: it does not fix the direction of an exact tie under setprecision(1), because that depends on the binary double n / divisor. `tieUp` stands for it.
- Naming.Exponent: `(int) log10(n)` is modelled as the number of decimal digits less one. This assumes std::log10 is exact at powers of ten and never rounds the logarithm of a count just below a power of ten up to that power's exponent, which holds for int counts.
- Config.ValidateConfig: the distribution entries, the sum and the correction are exact reals, not doubles. So the corrected sum is exactly 100 here, while in doubles the addition at src/Config.cpp:63-64 can leave a rounding error, and the comparisons at src/Config.cpp:60-61 are made on the rounded sum.
- The int overflow of OBJ fileCounter and JSON idCounter after 2^31 - 1 calls is not modelled; both are unbounded here.
- The unused `volume` parameter of OBJWriter::writeEntry is dropped.
- main.cpp, the progress bar and the post-processing in headers/Utils.h are left out.

## Findings

| source | as written | input that shows it | evidently intended | confidence | as-written member | corrected member |
|---|---|---|---|---|---|---|
| src/OBJWriter.cpp:34 | The face (1,2,3) is wound the same way as (0,1,2) across their shared edge | Any tetrahedron: the directed edge 1 -> 2 is run along by faces (0,1,2) and (1,2,3), and 2 -> 1 by none | (1,3,2), so that every edge is run along once in each direction and the four faces form a consistently oriented closed surface | medium, not executed | ObjWriter.SourceFacesMisoriented | ObjWriter.FacesOriented |
