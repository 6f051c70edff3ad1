/** CSVWriter: the dataset file name, the header line and the layout of one
    row. Coordinates are printed by `render`, which stands for the stream
    output of an exact coordinate and is not modelled. */
module CsvWriter {
  import opened Geometry
  import Decimal
  import Text
  import Naming
  import GeometryUtils
  import BaseWriter

  /** The number of vertex groups the shape field is padded to. */
  const MAX_VERTICES: nat := 16
  const PLACEHOLDER := "(-1,-1,-1)"

  /** std::to_string of the double n / divisor: "%f", six decimals. An int
      divided by 1000 or 10^6 has at most six decimals and lies far from a
      rounding boundary, so the six printed decimals are exactly those of the
      quotient. */
  function SixDecimals(n: nat, divisor: nat): string
    requires divisor == Naming.THOUSAND || divisor == Naming.MILLION
  {
    Decimal.NatToString(n / divisor) + "." + Decimal.ZeroPad((n % divisor) * (Naming.MILLION / divisor), 6)
  }

  /** Lines 34-37: keep the text up to one character after the first '.',
      when there is more after it. */
  function CutAfterFirstDecimal(s: string): string {
    var dot := Text.IndexOf(s, '.');
    if dot != -1 && dot + 2 < |s| then s[..dot + 2] else s
  }

  /** Cutting digits, a dot and at least two more characters keeps one of them. */
  lemma CutDigitsDotFraction(whole: string, fraction: string)
    requires Decimal.AllDigits(whole) && 2 <= |fraction|
    ensures CutAfterFirstDecimal(whole + "." + fraction) == whole + "." + [fraction[0]]
  {
    var s := whole + "." + fraction;
    assert s[..|whole|] == whole;
    assert '.' !in whole;
    assert s[|whole|] == '.';
    assert Text.IndexOf(s, '.') == |whole|;
    assert s[..|whole| + 2] == whole + "." + [fraction[0]];
  }

  lemma SixPowers()
    ensures Decimal.Pow10(5) == 100000 && Decimal.Pow10(6) == 1000000
  {
    assert Decimal.Pow10(1) == 10 && Decimal.Pow10(2) == 100 && Decimal.Pow10(3) == 1000;
    assert Decimal.Pow10(4) == 10000;
  }

  /** A leading digit over five more digits is the quotient by 10^5. */
  lemma LeadingQuotient(d: nat, rest: nat)
    requires rest < 100000
    ensures (d * 100000 + rest) / 100000 == d
  {
  }

  lemma SixWide(f: nat)
    requires f < 1000000
    ensures |Decimal.ZeroPad(f, 6)| == 6
  {
    SixPowers();
    Decimal.NatToStringLength(f, 6);
  }

  /** The first of six digits is the value's quotient by 10^5. */
  lemma LeadingOfSix(s: string)
    requires Decimal.AllDigits(s) && |s| == 6
    ensures Decimal.ParseNat(s) / 100000 == Decimal.DigitValue(s[0])
  {
    SixPowers();
    Decimal.ParseNatFront(s);
    Decimal.ParseNatBound(s[1..]);
    LeadingQuotient(Decimal.DigitValue(s[0]), Decimal.ParseNat(s[1..]));
  }

  /** Six decimals of a fraction below 10^6 begin with its 10^5 digit. */
  lemma FirstOfSixDecimals(f: nat)
    requires f < 1000000
    ensures |Decimal.ZeroPad(f, 6)| == 6
    ensures Decimal.ZeroPad(f, 6)[0] == Decimal.DigitChar(f / 100000)
  {
    var s := Decimal.ZeroPad(f, 6);
    SixWide(f);
    LeadingOfSix(s);
    var d := Decimal.DigitValue(s[0]);
    assert f / 100000 == d;
    Decimal.DigitCharOfValue(s[0]);
  }

  lemma TenthsDigitThousand(n: nat)
    ensures (n % 1000) * 1000 / 100000 == (10 * n / 1000) % 10
  {
    var a, r := n / 1000, n % 1000;
    var b, c := r / 100, r % 100;
    assert n == 1000 * a + 100 * b + c;
    assert 10 * n == 1000 * (10 * a + b) + 10 * c;
  }

  lemma TenthsDigitMillion(n: nat)
    ensures (n % 1000000) / 100000 == (10 * n / 1000000) % 10
  {
    var a, r := n / 1000000, n % 1000000;
    var b, c := r / 100000, r % 100000;
    assert n == 1000000 * a + 100000 * b + c;
    assert 10 * n == 1000000 * (10 * a + b) + 10 * c;
  }

  /** The first printed decimal of n / d is the tenths digit of n / d. */
  lemma TenthsDigit(n: nat, d: nat)
    requires d == Naming.THOUSAND || d == Naming.MILLION
    ensures (n % d) * (Naming.MILLION / d) / 100000 == (10 * n / d) % 10
  {
    if d == 1000 {
      TenthsDigitThousand(n);
    } else {
      TenthsDigitMillion(n);
    }
  }

  lemma FloorTenthsThousand(n: nat)
    ensures 10 * (n / 1000) + (10 * n / 1000) % 10 == 10 * n / 1000
  {
    var a, r := n / 1000, n % 1000;
    var b, c := (10 * r) / 1000, (10 * r) % 1000;
    assert 10 * n == 1000 * (10 * a + b) + c;
  }

  lemma FloorTenthsMillion(n: nat)
    ensures 10 * (n / 1000000) + (10 * n / 1000000) % 10 == 10 * n / 1000000
  {
    var a, r := n / 1000000, n % 1000000;
    var b, c := (10 * r) / 1000000, (10 * r) % 1000000;
    assert 10 * n == 1000000 * (10 * a + b) + c;
  }

  /** The whole part and the tenths digit together are the tenths count. */
  lemma FloorTenths(n: nat, d: nat)
    requires d == Naming.THOUSAND || d == Naming.MILLION
    ensures 10 * (n / d) + (10 * n / d) % 10 == 10 * n / d
  {
    if d == 1000 {
      FloorTenthsThousand(n);
    } else {
      FloorTenthsMillion(n);
    }
  }

  /** The number part of a file name for n >= 1000: the quotient n / divisor
      cut, not rounded, to one decimal that is always present. */
  function TruncatedNumber(n: int): string
    requires n >= Naming.THOUSAND
  {
    var d := Naming.Divisor(n);
    Decimal.NatToString(n / d) + "." + [Decimal.DigitChar((10 * n / d) % 10)]
  }

  /** What lines 31-37 print for n >= 1000 is the truncated quotient. */
  lemma PrintedThenCut(n: int)
    requires n >= Naming.THOUSAND
    ensures CutAfterFirstDecimal(SixDecimals(n, Naming.Divisor(n))) == TruncatedNumber(n)
  {
    var d := Naming.Divisor(n);
    var f := (n % d) * (Naming.MILLION / d);
    FirstOfSixDecimals(f);
    CutDigitsDotFraction(Decimal.NatToString(n / d), Decimal.ZeroPad(f, 6));
    TenthsDigit(n, d);
  }

  /** CSVWriter::formatFilename: the base, a count, "_dataset.csv". Below
      1000 the count reads back as n; from 1000 on it ends in 'M' exactly from
      a million on and in 'k' below. */
  function FormatFilename(n: int): (name: string)
    ensures var base := Naming.BASE_FILENAME;
      && |base| + 12 <= |name|
      && name[..|base|] == base
      && name[|name| - 12..] == "_dataset.csv"
      && (n < Naming.THOUSAND ==>
            var count := name[|base|..|name| - 12];
            Decimal.IsIntText(count) && Decimal.ParseInt(count) == n)
      && (n >= Naming.THOUSAND ==>
            && |base| + 13 <= |name|
            && (name[|name| - 13] == 'M' <==> n >= Naming.MILLION)
            && (name[|name| - 13] == 'k' <==> n < Naming.MILLION))
  {
    var count :=
      if n < Naming.THOUSAND then Decimal.IntToString(n)
      else CutAfterFirstDecimal(SixDecimals(n, Naming.Divisor(n))) + [Naming.Suffix(n)];
    Text.Framed(Naming.BASE_FILENAME, count, "_dataset.csv");
    Naming.BASE_FILENAME + count + "_dataset.csv"
  }

  /** Below 1000 the count is written in full; from 1000 on in thousands ('k')
      or millions ('M') with one cut decimal. */
  lemma FormatFilenameShape(n: int)
    ensures n < Naming.THOUSAND ==>
      FormatFilename(n) == Naming.BASE_FILENAME + Decimal.IntToString(n) + "_dataset.csv"
    ensures n >= Naming.THOUSAND ==>
      FormatFilename(n) == Naming.BASE_FILENAME + TruncatedNumber(n) + [Naming.Suffix(n)] + "_dataset.csv"
  {
    if n >= Naming.THOUSAND {
      var cut := CutAfterFirstDecimal(SixDecimals(n, Naming.Divisor(n)));
      var suffix := [Naming.Suffix(n)];
      assert FormatFilename(n) == Naming.BASE_FILENAME + (cut + suffix) + "_dataset.csv";
      PrintedThenCut(n);
      assert cut == TruncatedNumber(n);
      assert Naming.BASE_FILENAME + (cut + suffix) == Naming.BASE_FILENAME + cut + suffix;
    }
  }

  /** The number part is digits, a dot and one digit, and read as a count of
      tenths it is 10 n / divisor rounded down: the decimal is cut, not rounded. */
  lemma TruncatedNumberIsFloor(n: int)
    requires n >= Naming.THOUSAND
    ensures var s := TruncatedNumber(n); var w := |s| - 2;
      && 0 < w && s[w] == '.'
      && Decimal.AllDigits(s[..w]) && Decimal.IsDigit(s[w + 1])
      && 10 * Decimal.ParseNat(s[..w]) + Decimal.DigitValue(s[w + 1]) == 10 * n / Naming.Divisor(n)
  {
    var s := TruncatedNumber(n);
    var d := Naming.Divisor(n);
    assert s[..|s| - 2] == Decimal.NatToString(n / d);
    FloorTenths(n, d);
  }

  /** The two file-name variants part ways: for 1999 entries the number part
      of the CSV writer's name is cut to "1.9", that of the shared
      formatFilename rounded to "2" (so "1.9k" against "2k"). */
  lemma VariantsDisagree(tieUp: bool)
    ensures TruncatedNumber(1999) == "1.9"
    ensures BaseWriter.NumberPart(1999, tieUp) == "2"
  {
    assert Naming.Divisor(1999) == 1000;
    assert 1999 / 1000 == 1 && (10 * 1999 / 1000) % 10 == 9;
    Decimal.SingleDigit(1);
    BaseWriter.RoundsNineteenNinetyNine(tieUp);
  }

  /** Below 1000 the name determines the count. */
  lemma SmallCountsHaveDistinctNames(a: int, b: int)
    requires a < Naming.THOUSAND && b < Naming.THOUSAND
    requires FormatFilename(a) == FormatFilename(b)
    ensures a == b
  {
    var base := Naming.BASE_FILENAME;
    var x, y := FormatFilename(a), FormatFilename(b);
    assert x[|base|..|x| - 12] == Decimal.IntToString(a);
    assert y[|base|..|y| - 12] == Decimal.IntToString(b);
    Decimal.IntToStringInjective(a, b);
  }

  /** The name of one coordinate column: T{i}_v{v}_{x|y|z}. Tetrahedra and
      vertices are numbered by one digit, which is what std::to_string prints
      for them (Decimal.SingleDigit). */
  function HeaderName(i: nat, v: nat, axis: nat): string
    requires i < 10 && v < 10 && axis < 3
  {
    "T" + [Decimal.DigitChar(i)] + "_v" + [Decimal.DigitChar(v)] + "_" + [if axis == 0 then 'x' else if axis == 1 then 'y' else 'z']
  }

  /** The name of column j: 24 coordinate columns ordered by tetrahedron,
      then vertex, then axis; then the class and the status. */
  function Column(j: nat): string
    requires j < 26
  {
    if j < 24 then HeaderName(j / 12 + 1, (j % 12) / 3 + 1, j % 3)
    else if j == 24 then "intersection_class"
    else "intersection_status"
  }

  /** The header row as a whole: the 26 columns in order. */
  function Headers(): (h: seq<string>)
    ensures |h| == 26
    ensures forall j :: 0 <= j < 26 ==> h[j] == Column(j)
  {
    seq(26, j requires 0 <= j < 26 => Column(j))
  }

  /** Column 12 (i - 1) + 3 (v - 1) + axis holds tetrahedron i, vertex v, that axis. */
  lemma ColumnIndex(i: nat, v: nat, axis: nat)
    requires 1 <= i <= 2 && 1 <= v <= 4 && axis < 3
    ensures 12 * (i - 1) + 3 * (v - 1) + axis < 24
    ensures Column(12 * (i - 1) + 3 * (v - 1) + axis) == HeaderName(i, v, axis)
  {
    var j := 12 * (i - 1) + 3 * (v - 1) + axis;
    assert j / 12 + 1 == i && (j % 12) / 3 + 1 == v && j % 3 == axis;
  }

  /** The body of the inner loop: the x, y and z names of vertex v of tetrahedron i. */
  method PushVertexColumns(headers: seq<string>, i: nat, v: nat) returns (h: seq<string>)
    requires 1 <= i <= 2 && 1 <= v <= 4
    requires |headers| == 12 * (i - 1) + 3 * (v - 1)
    requires forall j :: 0 <= j < |headers| ==> headers[j] == Column(j)
    ensures |h| == |headers| + 3
    ensures forall j :: 0 <= j < |h| ==> h[j] == Column(j)
  {
    h := headers + [HeaderName(i, v, 0)];
    h := h + [HeaderName(i, v, 1)];
    h := h + [HeaderName(i, v, 2)];
    forall j | 0 <= j < |h|
      ensures h[j] == Column(j)
    {
      if j < |headers| {
        assert h[j] == headers[j];
      } else {
        var axis := j - |headers|;
        ColumnIndex(i, v, axis);
        assert h[j] == HeaderName(i, v, axis);
      }
    }
  }

  /** initializeHeaders: the nested loops over tetrahedron i and vertex v
      push the x, y and z names, then the two label columns. */
  method InitializeHeaders() returns (headers: seq<string>)
    ensures headers == Headers()
  {
    headers := [];
    var i := 1;
    while i <= 2
      invariant 1 <= i <= 3
      invariant |headers| == 12 * (i - 1)
      invariant forall j :: 0 <= j < |headers| ==> headers[j] == Column(j)
    {
      var v := 1;
      while v <= 4
        invariant 1 <= v <= 5
        invariant |headers| == 12 * (i - 1) + 3 * (v - 1)
        invariant forall j :: 0 <= j < |headers| ==> headers[j] == Column(j)
      {
        headers := PushVertexColumns(headers, i, v);
        v := v + 1;
      }
      i := i + 1;
    }
    headers := headers + ["intersection_class"];
    headers := headers + ["intersection_status"];
  }

  /** writeHeaders: the names with a comma after every one but the last, then a newline. */
  method WriteHeaders(headers: seq<string>) returns (line: string)
    ensures line == Text.Join(headers) + "\n"
  {
    line := "";
    var i := 0;
    while i < |headers|
      invariant 0 <= i <= |headers|
      invariant i == 0 ==> line == ""
      invariant 0 < i ==> line == Text.Join(headers[..i]) + (if i < |headers| then "," else "")
    {
      if 0 < i {
        Text.JoinAppend(headers[..i], [headers[i]]);
      }
      assert headers[..i] + [headers[i]] == headers[..i + 1];
      line := line + headers[i];
      if i < |headers| - 1 {
        line := line + ",";
      }
      i := i + 1;
    }
    assert headers[..|headers|] == headers;
    line := line + "\n";
  }

  /** writeVertex: x, y and z separated by commas. */
  function VertexText(p: Point3, render: real -> string): string {
    render(p.x) + "," + render(p.y) + "," + render(p.z)
  }

  /** The loop over the vertices i..3 of a tetrahedron, each followed by one comma. */
  function TetrahedronText(t: Tetrahedron, i: nat, render: real -> string): string
    requires i <= 4
    decreases 4 - i
  {
    if i == 4 then "" else VertexText(t.Vertex(i), render) + "," + TetrahedronText(t, i + 1, render)
  }

  /** padVertices = MAX_VERTICES - size(): an unsigned subtraction modulo
      2^64, narrowed to int. */
  function PadVertices(size: nat): (pad: int)
    ensures size <= MAX_VERTICES + 0x8000_0000 ==> pad == MAX_VERTICES - size
  {
    var wrapped := (MAX_VERTICES - size) % GeometryUtils.SIZE_MODULUS;
    if MAX_VERTICES < size <= MAX_VERTICES + 0x8000_0000 then
      WrappedDeficit(size);
      GeometryUtils.NarrowToInt(wrapped)
    else
      GeometryUtils.NarrowToInt(wrapped)
  }

  /** A deficit below 2^31 survives the unsigned wrap and the narrowing. */
  lemma WrappedDeficit(size: nat)
    requires MAX_VERTICES < size <= MAX_VERTICES + 0x8000_0000
    ensures (MAX_VERTICES - size) % GeometryUtils.SIZE_MODULUS == GeometryUtils.SIZE_MODULUS + MAX_VERTICES - size
    ensures (GeometryUtils.SIZE_MODULUS + MAX_VERTICES - size) % GeometryUtils.INT_MODULUS
      == GeometryUtils.INT_MODULUS + MAX_VERTICES - size
  {
    var k := GeometryUtils.INT_MODULUS;
    assert GeometryUtils.SIZE_MODULUS + MAX_VERTICES - size == k * (k - 1) + (k + MAX_VERTICES - size);
  }

  /** The loop over the shape's vertices: each in parentheses, followed by a
      comma unless it is the last one and no padding follows. */
  function ShapeText(shape: seq<Point3>, padVertices: int, render: real -> string): string {
    if |shape| == 0 then ""
    else
      "(" + VertexText(shape[0], render) + ")"
      + (if |shape| > 1 || padVertices > 0 then "," else "")
      + ShapeText(shape[1..], padVertices, render)
  }

  /** The padding loop for i in from..padVertices-1: a placeholder group,
      followed by a comma unless it is the last. */
  function PaddingText(from: int, padVertices: int): string
    decreases padVertices - from
  {
    if from >= padVertices then ""
    else PLACEHOLDER + (if from < padVertices - 1 then "," else "") + PaddingText(from + 1, padVertices)
  }

  /** The text between the quotes of the shape field. */
  function ShapeField(shape: seq<Point3>, render: real -> string): string {
    var padVertices := PadVertices(|shape|);
    ShapeText(shape, padVertices, render) + PaddingText(0, padVertices)
  }

  /** CSVWriter::writeEntry: one data row. */
  function WriteEntry(t1: Tetrahedron, t2: Tetrahedron, intersectionClass: IntersectionType,
                      shape: seq<Point3>, intersects: bool, render: real -> string): string
  {
    TetrahedronText(t1, 0, render) + TetrahedronText(t2, 0, render)
    + Decimal.IntToString(Ordinal(intersectionClass)) + ","
    + "\"" + ShapeField(shape, render) + "\","
    + (if intersects then "1" else "0")
    + "\n"
  }

  /** A row ends with the status flag and the newline: ",1\n" exactly when
      the pair intersects, ",0\n" otherwise. */
  lemma RowEndsWithStatus(t1: Tetrahedron, t2: Tetrahedron, intersectionClass: IntersectionType,
                          shape: seq<Point3>, intersects: bool, render: real -> string)
    ensures var row := WriteEntry(t1, t2, intersectionClass, shape, intersects, render);
      && 3 <= |row| && row[|row| - 1] == '\n'
      && (row[|row| - 3..] == ",1\n" <==> intersects)
      && (row[|row| - 3..] == ",0\n" <==> !intersects)
  {
    RowEnd(TetrahedronText(t1, 0, render) + TetrahedronText(t2, 0, render)
      + Decimal.IntToString(Ordinal(intersectionClass)) + ","
      + "\"" + ShapeField(shape, render), if intersects then "1" else "0");
  }

  /** A row's last three characters: the comma after the shape field, the
      one-character flag, the newline. */
  lemma RowEnd(front: string, flag: string)
    requires |flag| == 1
    ensures var row := front + "\"," + flag + "\n";
      3 <= |row| && row[|row| - 3..] == [',', flag[0], '\n']
  {
    var row := front + "\"," + flag + "\n";
    assert row[|row| - 3] == ',' && row[|row| - 2] == flag[0] && row[|row| - 1] == '\n';
  }

  // The row described as a list of fields.

  /** The twelve coordinates of vertices i..3, vertex by vertex, x before y before z. */
  function CoordinateTexts(t: Tetrahedron, i: nat, render: real -> string): (cs: seq<string>)
    requires i <= 4
    ensures |cs| == 3 * (4 - i)
    decreases 4 - i
  {
    if i == 4 then []
    else var p := t.Vertex(i); [render(p.x), render(p.y), render(p.z)] + CoordinateTexts(t, i + 1, render)
  }

  /** One vertex of the shape as a group "(x,y,z)". */
  function Group(p: Point3, render: real -> string): string {
    "(" + VertexText(p, render) + ")"
  }

  function Groups(shape: seq<Point3>, render: real -> string): (gs: seq<string>)
    ensures |gs| == |shape|
    ensures forall k :: 0 <= k < |shape| ==> gs[k] == Group(shape[k], render)
  {
    seq(|shape|, k requires 0 <= k < |shape| => Group(shape[k], render))
  }

  function Placeholders(count: nat): (ps: seq<string>)
    ensures |ps| == count && forall k :: 0 <= k < count ==> ps[k] == PLACEHOLDER
  {
    seq(count, k => PLACEHOLDER)
  }

  /** The fields of a row in order: 24 coordinates, the class ordinal, the
      quoted shape, and the 0/1 status. */
  function RowFields(t1: Tetrahedron, t2: Tetrahedron, intersectionClass: IntersectionType,
                     shape: seq<Point3>, intersects: bool, render: real -> string): (fs: seq<string>)
    ensures |fs| == 27
  {
    CoordinateTexts(t1, 0, render) + CoordinateTexts(t2, 0, render)
    + [Decimal.IntToString(Ordinal(intersectionClass)),
       "\"" + ShapeField(shape, render) + "\"",
       if intersects then "1" else "0"]
  }

  lemma {:induction false} TetrahedronTextIsJoin(t: Tetrahedron, i: nat, render: real -> string)
    requires i < 4
    ensures TetrahedronText(t, i, render) == Text.Join(CoordinateTexts(t, i, render)) + ","
    decreases 4 - i
  {
    var p := t.Vertex(i);
    var head := [render(p.x), render(p.y), render(p.z)];
    Text.JoinThree(render(p.x), render(p.y), render(p.z));
    if i < 3 {
      TetrahedronTextIsJoin(t, i + 1, render);
      Text.JoinAppend(head, CoordinateTexts(t, i + 1, render));
    } else {
      assert CoordinateTexts(t, i, render) == head;
    }
  }

  lemma {:induction false} ShapeTextIsJoin(shape: seq<Point3>, pad: int, render: real -> string)
    ensures ShapeText(shape, pad, render)
      == Text.Join(Groups(shape, render)) + (if 0 < |shape| && pad > 0 then "," else "")
    decreases |shape|
  {
    if 0 < |shape| {
      ShapeTextIsJoin(shape[1..], pad, render);
      var gs := Groups(shape, render);
      assert gs == [gs[0]] + Groups(shape[1..], render);
      if 1 < |shape| {
        Text.JoinAppend([gs[0]], Groups(shape[1..], render));
      }
    }
  }

  lemma {:induction false} PaddingTextIsJoin(from: int, pad: int)
    requires from <= pad
    ensures PaddingText(from, pad) == Text.Join(Placeholders(pad - from))
    decreases pad - from
  {
    if from < pad {
      PaddingTextIsJoin(from + 1, pad);
      var ps := Placeholders(pad - from);
      assert ps == [PLACEHOLDER] + Placeholders(pad - from - 1);
      if from < pad - 1 {
        Text.JoinAppend([PLACEHOLDER], Placeholders(pad - from - 1));
      }
    }
  }

  /** The vertex groups and then the padding, for any padding count. */
  lemma ShapeAndPaddingIsJoin(shape: seq<Point3>, pad: int, render: real -> string)
    ensures ShapeText(shape, pad, render) + PaddingText(0, pad)
      == Text.Join(Groups(shape, render) + Placeholders(if pad > 0 then pad else 0))
  {
    var gs := Groups(shape, render);
    ShapeTextIsJoin(shape, pad, render);
    if pad > 0 {
      PaddingTextIsJoin(0, pad);
      if 0 < |shape| {
        Text.JoinAppend(gs, Placeholders(pad));
      } else {
        assert gs + Placeholders(pad) == Placeholders(pad);
      }
    } else {
      assert gs + Placeholders(0) == gs;
    }
  }

  /** The shape field lists one group per vertex of the shape, then as many
      placeholder groups as padVertices asks for, one comma between neighbours. */
  lemma ShapeFieldGroups(shape: seq<Point3>, render: real -> string)
    ensures var pad := PadVertices(|shape|);
      ShapeField(shape, render)
        == Text.Join(Groups(shape, render) + Placeholders(if pad > 0 then pad else 0))
  {
    ShapeAndPaddingIsJoin(shape, PadVertices(|shape|), render);
  }

  /** Up to 16 vertices the shape field always holds exactly 16 groups. */
  lemma ShapeFieldHasSixteenGroups(shape: seq<Point3>, render: real -> string)
    requires |shape| <= MAX_VERTICES
    ensures ShapeField(shape, render) == Text.Join(Groups(shape, render) + Placeholders(MAX_VERTICES - |shape|))
    ensures |Groups(shape, render) + Placeholders(MAX_VERTICES - |shape|)| == MAX_VERTICES
  {
    ShapeFieldGroups(shape, render);
  }

  /** Regrouping the pieces of a row. */
  lemma RegroupRow(x1: string, x2: string, ord: string, sf: string, flag: string)
    ensures (x1 + ",") + (x2 + ",") + ord + "," + "\"" + sf + "\"," + flag + "\n"
      == ((x1 + "," + x2) + "," + (ord + "," + ("\"" + sf + "\"") + "," + flag)) + "\n"
  {
  }

  /** Without the newline, a row is its fields joined by commas. */
  lemma RowIsJoin(t1: Tetrahedron, t2: Tetrahedron, intersectionClass: IntersectionType,
                  shape: seq<Point3>, intersects: bool, render: real -> string)
    ensures WriteEntry(t1, t2, intersectionClass, shape, intersects, render)
      == Text.Join(RowFields(t1, t2, intersectionClass, shape, intersects, render)) + "\n"
  {
    var c1, c2 := CoordinateTexts(t1, 0, render), CoordinateTexts(t2, 0, render);
    var ord := Decimal.IntToString(Ordinal(intersectionClass));
    var sf := ShapeField(shape, render);
    var flag := if intersects then "1" else "0";
    var tail := [ord, "\"" + sf + "\"", flag];
    TetrahedronTextIsJoin(t1, 0, render);
    TetrahedronTextIsJoin(t2, 0, render);
    Text.JoinAppend(c1, c2);
    Text.JoinThree(ord, "\"" + sf + "\"", flag);
    Text.JoinAppend(c1 + c2, tail);
    RegroupRow(Text.Join(c1), Text.Join(c2), ord, sf, flag);
    assert RowFields(t1, t2, intersectionClass, shape, intersects, render) == c1 + c2 + tail;
  }

  /** Text with neither a comma nor a double quote. */
  predicate Plain(s: string) {
    ',' !in s && '"' !in s
  }

  /** What a coordinate printer must avoid for rows to be read back field by field. */
  ghost predicate PlainRender(render: real -> string) {
    forall x: real :: Plain(render(x))
  }

  lemma {:induction false} CoordinateTextsPlain(t: Tetrahedron, i: nat, render: real -> string)
    requires i <= 4 && PlainRender(render)
    ensures forall k :: 0 <= k < |CoordinateTexts(t, i, render)| ==> Plain(CoordinateTexts(t, i, render)[k])
    decreases 4 - i
  {
    if i < 4 {
      var p := t.Vertex(i);
      assert Plain(render(p.x)) && Plain(render(p.y)) && Plain(render(p.z));
      CoordinateTextsPlain(t, i + 1, render);
    }
  }

  lemma IntTextPlain(s: string)
    requires Decimal.IsIntText(s)
    ensures Plain(s)
  {
    if s[0] == '-' {
      assert s == [s[0]] + s[1..];
      assert forall k :: 0 <= k < |s[1..]| ==> Decimal.IsDigit(s[1..][k]);
    }
  }

  lemma GroupUnquoted(p: Point3, render: real -> string)
    requires Plain(render(p.x)) && Plain(render(p.y)) && Plain(render(p.z))
    ensures '"' !in Group(p, render)
  {
  }

  /** The shape field holds no double quote, so quoting it makes one field. */
  lemma ShapeFieldUnquoted(shape: seq<Point3>, render: real -> string)
    requires PlainRender(render)
    ensures '"' !in ShapeField(shape, render)
  {
    var pad := PadVertices(|shape|);
    var groups := Groups(shape, render);
    var gs := groups + Placeholders(if pad > 0 then pad else 0);
    ShapeFieldGroups(shape, render);
    forall k | 0 <= k < |gs|
      ensures '"' !in gs[k]
    {
      if k < |shape| {
        var p := shape[k];
        assert Plain(render(p.x)) && Plain(render(p.y)) && Plain(render(p.z));
        GroupUnquoted(p, render);
        assert gs[k] == groups[k];
      } else {
        assert gs[k] == PLACEHOLDER;
      }
    }
    Text.JoinExcludes(gs, '"');
  }

  /** Every field of a row is read as one field. */
  lemma RowFieldsAreFields(t1: Tetrahedron, t2: Tetrahedron, intersectionClass: IntersectionType,
                           shape: seq<Point3>, intersects: bool, render: real -> string)
    requires PlainRender(render)
    ensures forall k :: 0 <= k < 27 ==> Text.IsField(RowFields(t1, t2, intersectionClass, shape, intersects, render)[k])
  {
    var fs := RowFields(t1, t2, intersectionClass, shape, intersects, render);
    var c1, c2 := CoordinateTexts(t1, 0, render), CoordinateTexts(t2, 0, render);
    CoordinateTextsPlain(t1, 0, render);
    CoordinateTextsPlain(t2, 0, render);
    IntTextPlain(fs[24]);
    ShapeFieldUnquoted(shape, render);
    forall k | 0 <= k < 27
      ensures Text.IsField(fs[k])
    {
      if k < 12 {
        assert fs[k] == c1[k];
        Text.PlainIsField(fs[k]);
      } else if k < 24 {
        assert fs[k] == c2[k - 12];
        Text.PlainIsField(fs[k]);
      } else if k == 25 {
        Text.QuotedIsField(ShapeField(shape, render));
      } else {
        Text.PlainIsField(fs[k]);
      }
    }
  }

  /** A CSV reader splits a data row into 27 fields: the 24 coordinates, the
      class, the quoted shape and the status. The header names 26 columns, so
      the status column's name sits over the shape and the status itself has
      no column name. */
  lemma RowHasOneFieldMoreThanHeader(t1: Tetrahedron, t2: Tetrahedron, intersectionClass: IntersectionType,
                                     shape: seq<Point3>, intersects: bool, render: real -> string)
    requires PlainRender(render)
    ensures var row := WriteEntry(t1, t2, intersectionClass, shape, intersects, render);
      && 0 < |row| && row[|row| - 1] == '\n'
      && Text.Fields(row[..|row| - 1]) == RowFields(t1, t2, intersectionClass, shape, intersects, render)
      && |Text.Fields(row[..|row| - 1])| == |Headers()| + 1
      && Headers()[25] == "intersection_status"
      && Text.Fields(row[..|row| - 1])[25] == "\"" + ShapeField(shape, render) + "\""
  {
    var fs := RowFields(t1, t2, intersectionClass, shape, intersects, render);
    var row := WriteEntry(t1, t2, intersectionClass, shape, intersects, render);
    RowIsJoin(t1, t2, intersectionClass, shape, intersects, render);
    assert row[..|row| - 1] == Text.Join(fs);
    RowFieldsAreFields(t1, t2, intersectionClass, shape, intersects, render);
    Text.FieldsOfJoin(fs);
  }
}
