/** The parts of a dataset file name that both formatFilename functions share:
    the path prefix and the magnitude of the entry count. */
module Naming {
  import Decimal

  const BASE_FILENAME := "../output/tetrahedron_pair_"
  const THOUSAND: nat := 1000
  const MILLION: nat := 1000000

  /** exponent = (int) log10(n): for n >= 1 the number of decimal digits less
      one (std::log10 is exact at powers of ten). */
  function Exponent(n: nat): int {
    |Decimal.NatToString(n)| - 1
  }

  /** The exponent reaches 6 exactly from a million on. */
  lemma ExponentIsLog(n: nat)
    ensures Exponent(n) >= 6 <==> n >= MILLION
  {
    var s := Decimal.NatToString(n);
    assert Decimal.Pow10(6) == MILLION by {
      assert Decimal.Pow10(1) == 10 && Decimal.Pow10(2) == 100 && Decimal.Pow10(3) == 1000;
      assert Decimal.Pow10(4) == 10000 && Decimal.Pow10(5) == 100000;
    }
    if n < MILLION {
      Decimal.NatToStringLength(n, 6);
    } else {
      Decimal.ParseNatBound(s);
      if |s| <= 6 {
        Decimal.Pow10Monotone(|s|, 6);
      }
    }
  }

  /** The divisor chosen by the exponent test: counts from 10^6 on are
      written in millions, smaller ones from 1000 on in thousands. */
  function Divisor(n: int): (d: nat)
    requires n >= THOUSAND
    ensures d == MILLION <==> n >= MILLION
    ensures d == THOUSAND <==> n < MILLION
    ensures d <= n
  {
    ExponentIsLog(n);
    if Exponent(n) >= 6 then MILLION else THOUSAND
  }

  /** The suffix chosen by the same test. */
  function Suffix(n: int): (c: char)
    requires n >= THOUSAND
    ensures c == 'M' <==> n >= MILLION
    ensures c == 'k' <==> n < MILLION
  {
    ExponentIsLog(n);
    if Exponent(n) >= 6 then 'M' else 'k'
  }
}
