/** The writer factory of BaseWriter.cpp and the file-name variant it uses,
    which rounds the count to one decimal and drops a zero decimal. */
module BaseWriter {
  import Decimal
  import Text
  import Naming

  /** std::fixed with std::setprecision(1) of n / divisor, as a count of
      tenths: the nearest one. At an exact half the direction depends on the
      binary double n / divisor, which is not modelled; tieUp stands for it. */
  function RoundedTenths(n: int, tieUp: bool): nat
    requires n >= Naming.THOUSAND
  {
    var d := Naming.Divisor(n);
    var q, r := 10 * n / d, 10 * n % d;
    if 2 * r > d || (2 * r == d && tieUp) then q + 1 else q
  }

  /** Tenths printed with exactly one decimal. */
  function FixedOne(tenths: nat): (s: string)
    ensures 3 <= |s| && s[|s| - 2] == '.' && Decimal.IsDigit(s[|s| - 1])
  {
    Decimal.NatToString(tenths / 10) + "." + [Decimal.DigitChar(tenths % 10)]
  }

  /** Lines 26-29: a last character '0' goes, and the character before it too. */
  function StripTrailingZero(s: string): string
    requires 2 <= |s|
  {
    if s[|s| - 1] == '0' then s[..|s| - 2] else s
  }

  function NumberPart(n: int, tieUp: bool): string
    requires n >= Naming.THOUSAND
  {
    StripTrailingZero(FixedOne(RoundedTenths(n, tieUp)))
  }

  /** The free formatFilename(extension, n): the base, a count, "_dataset."
      and the extension. Below 1000 the count reads back as n; from 1000 on it
      ends in 'M' exactly from a million on and in 'k' below. */
  function FormatFilename(extension: string, n: int, tieUp: bool): (name: string)
    ensures var base, tail := Naming.BASE_FILENAME, "_dataset." + extension;
      && |base| + |tail| <= |name|
      && name[..|base|] == base
      && name[|name| - |tail|..] == tail
      && (n < Naming.THOUSAND ==>
            var count := name[|base|..|name| - |tail|];
            Decimal.IsIntText(count) && Decimal.ParseInt(count) == n)
      && (n >= Naming.THOUSAND ==>
            && |base| + |tail| + 1 <= |name|
            && (name[|name| - |tail| - 1] == 'M' <==> n >= Naming.MILLION)
            && (name[|name| - |tail| - 1] == 'k' <==> n < Naming.MILLION))
  {
    var count :=
      if n < Naming.THOUSAND then Decimal.IntToString(n)
      else NumberPart(n, tieUp) + [Naming.Suffix(n)];
    Text.Framed(Naming.BASE_FILENAME, count, "_dataset." + extension);
    assert Naming.BASE_FILENAME + count + "_dataset." + extension
      == Naming.BASE_FILENAME + count + ("_dataset." + extension);
    Naming.BASE_FILENAME + count + "_dataset." + extension
  }

  /** The file name up to the dot before the extension. */
  function Stem(n: int, tieUp: bool): string {
    if n < Naming.THOUSAND then
      Naming.BASE_FILENAME + Decimal.IntToString(n) + "_dataset"
    else
      Naming.BASE_FILENAME + NumberPart(n, tieUp) + [Naming.Suffix(n)] + "_dataset"
  }

  lemma RegroupExtension(a: string, b: string, extension: string)
    ensures a + b + "_dataset." + extension == (a + b + "_dataset") + ['.'] + extension
  {
  }

  /** createWriter uses its type string as the extension, after the stem and a dot. */
  lemma FormatFilenameExtension(extension: string, n: int, tieUp: bool)
    ensures FormatFilename(extension, n, tieUp) == Stem(n, tieUp) + ['.'] + extension
  {
    if n < Naming.THOUSAND {
      RegroupExtension(Naming.BASE_FILENAME, Decimal.IntToString(n), extension);
    } else {
      RegroupExtension(Naming.BASE_FILENAME, NumberPart(n, tieUp) + [Naming.Suffix(n)], extension);
    }
  }

  /** Rounding to the nearest tenth: the printed tenths t are 10 n / divisor
      rounded down or up, within half a tenth of the quotient, and away from
      an exact half both tie directions give the same t. */
  lemma {:induction false} RoundedTenthsIsNearest(n: int, tieUp: bool)
    requires n >= Naming.THOUSAND
    ensures var t := RoundedTenths(n, tieUp); var d := Naming.Divisor(n);
      && (t == 10 * n / d || t == 10 * n / d + 1)
      && 2 * (10 * n - t * d) <= d
      && 2 * (t * d - 10 * n) <= d
      && (2 * (10 * n % d) != d ==> t == RoundedTenths(n, !tieUp))
  {
    var d := Naming.Divisor(n);
    var q, r := 10 * n / d, 10 * n % d;
    if d == Naming.THOUSAND {
      assert 10 * n == 1000 * q + r;
    } else {
      assert 10 * n == 1000000 * q + r;
    }
  }

  /** The number part never ends in ".0": a zero decimal is dropped with its
      dot, leaving the whole count of units; any other decimal stays. */
  lemma NumberPartShape(n: int, tieUp: bool)
    requires n >= Naming.THOUSAND
    ensures var t := RoundedTenths(n, tieUp); var s := NumberPart(n, tieUp);
      && (t % 10 == 0 ==> s == Decimal.NatToString(t / 10))
      && (t % 10 != 0 ==> s == Decimal.NatToString(t / 10) + "." + [Decimal.DigitChar(t % 10)])
      && !(2 <= |s| && s[|s| - 2..] == ".0")
  {
    var t := RoundedTenths(n, tieUp);
    var whole := Decimal.NatToString(t / 10);
    var s := FixedOne(t);
    assert s[..|s| - 2] == whole;
    if t % 10 == 0 {
      assert s[|s| - 1] == '0';
      assert Decimal.IsDigit(whole[|whole| - 1]);
    } else {
      assert Decimal.DigitValue(s[|s| - 1]) != 0;
    }
  }

  /** Below 1000 the count is written in full, so equal names, whatever
      the tie directions, mean equal counts. */
  lemma SmallCountsHaveDistinctNames(extension: string, a: int, b: int, tieA: bool, tieB: bool)
    requires a < Naming.THOUSAND && b < Naming.THOUSAND
    requires FormatFilename(extension, a, tieA) == FormatFilename(extension, b, tieB)
    ensures a == b
  {
    var x, y := FormatFilename(extension, a, tieA), FormatFilename(extension, b, tieB);
    var k := |Naming.BASE_FILENAME|;
    var j := |x| - |"_dataset." + extension|;
    assert Decimal.ParseInt(x[k..j]) == a;
    assert Decimal.ParseInt(y[k..j]) == b;
  }

  lemma RoundsNineteenNinetyNine(tieUp: bool)
    ensures NumberPart(1999, tieUp) == "2"
  {
    assert Naming.Divisor(1999) == 1000;
    assert 10 * 1999 / 1000 == 19 && 10 * 1999 % 1000 == 990;
    assert RoundedTenths(1999, tieUp) == 20;
    Decimal.SingleDigit(2);
    assert FixedOne(20) == "2.0";
  }

  /** 1999 entries make "2k": the decimal is rounded, and the zero dropped. */
  lemma RoundedNameNineteenNinetyNine(extension: string, tieUp: bool)
    ensures FormatFilename(extension, 1999, tieUp) == Naming.BASE_FILENAME + "2k_dataset." + extension
  {
    RoundsNineteenNinetyNine(tieUp);
    assert Naming.Suffix(1999) == 'k';
    assert "2" + ['k'] == "2k";
  }

  /** The writer createWriter returns; Null is the null pointer. */
  datatype Writer =
    | Json(filename: string)
    | Csv(filename: string, precision: int)
    | Obj(directory: string)
    | Null

  /** BaseWriter::createWriter. */
  function CreateWriter(typeName: string, n: int, precision: int, tieUp: bool): (w: Writer)
    ensures w.Json? <==> typeName == "json"
    ensures w.Csv? <==> typeName == "csv"
    ensures w.Obj? <==> typeName == "obj"
    ensures w.Null? <==> typeName !in {"json", "csv", "obj"}
    ensures (w.Json? || w.Csv?) ==> w.filename == FormatFilename(typeName, n, tieUp)
    ensures w.Csv? ==> w.precision == precision
  {
    var filename := FormatFilename(typeName, n, tieUp);
    if typeName == "json" then Json(filename)
    else if typeName == "csv" then Csv(filename, precision)
    else if typeName == "obj" then Obj(RemoveExtension(filename))
    else Null
  }

  /** filename.substr(0, filename.find_last_of(".")): everything before the
      last dot, or all of it when there is none (npos). */
  function RemoveExtension(filename: string): string {
    var dot := Text.LastIndexOf(filename, '.');
    if dot == -1 then filename else filename[..dot]
  }

  lemma RemoveExtensionOf(stem: string, extension: string)
    requires '.' !in extension
    ensures RemoveExtension(stem + ['.'] + extension) == stem
  {
    Text.LastIndexOfSeparator(stem, '.', extension);
    assert (stem + ['.'] + extension)[..|stem|] == stem;
  }

  lemma DotObj(stem: string)
    ensures stem + ['.'] + "obj" == stem + ".obj"
  {
  }

  /** The OBJ directory is the file name without its ".obj" extension. */
  lemma ObjDirectoryDropsExtension(n: int, precision: int, tieUp: bool)
    ensures CreateWriter("obj", n, precision, tieUp).directory == Stem(n, tieUp)
    ensures FormatFilename("obj", n, tieUp) == Stem(n, tieUp) + ".obj"
  {
    var stem := Stem(n, tieUp);
    FormatFilenameExtension("obj", n, tieUp);
    RemoveExtensionOf(stem, "obj");
    DotObj(stem);
  }
}
