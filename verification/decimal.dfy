/** Decimal text of integers, as std::to_string and a zero-filled std::setw print it,
    together with the reading back that shows the text determines the number. */
module Decimal {

  predicate IsDigit(c: char) {
    '0' <= c <= '9'
  }

  predicate AllDigits(s: string) {
    forall i :: 0 <= i < |s| ==> IsDigit(s[i])
  }

  function DigitValue(c: char): nat
    requires IsDigit(c)
  {
    c as int - '0' as int
  }

  function DigitChar(d: nat): (c: char)
    requires d < 10
    ensures IsDigit(c) && DigitValue(c) == d
  {
    (d + '0' as int) as char
  }

  /** DigitChar undoes DigitValue. */
  lemma DigitCharOfValue(c: char)
    requires IsDigit(c)
    ensures DigitChar(DigitValue(c)) == c
  {
  }

  function Pow10(k: nat): (p: nat)
    ensures p >= 1
  {
    if k == 0 then 1 else 10 * Pow10(k - 1)
  }

  /** Powers of ten grow with the exponent. */
  lemma {:induction false} Pow10Monotone(i: nat, j: nat)
    requires i <= j
    ensures Pow10(i) <= Pow10(j)
  {
    if i < j {
      Pow10Monotone(i, j - 1);
    }
  }

  /** The value of a string of decimal digits, most significant digit first. */
  function ParseNat(s: string): nat
    requires AllDigits(s)
  {
    if |s| == 0 then 0 else 10 * ParseNat(s[..|s| - 1]) + DigitValue(s[|s| - 1])
  }

  /** std::to_string of a non-negative value: the shortest digit string, so it
      starts with '0' only when it is "0", and it reads back as the value. */
  function NatToString(n: nat): (s: string)
    ensures 1 <= |s| && AllDigits(s)
    ensures s[0] == '0' ==> s == "0"
    ensures ParseNat(s) == n
  {
    if n < 10 then
      [DigitChar(n)]
    else
      var high := NatToString(n / 10);
      var s := high + [DigitChar(n % 10)];
      assert s[..|s| - 1] == high;
      s
  }

  /** Text that std::to_string can produce for an int: an optional minus, then digits. */
  predicate IsIntText(s: string) {
    || (1 <= |s| && AllDigits(s))
    || (2 <= |s| && s[0] == '-' && AllDigits(s[1..]))
  }

  function ParseInt(s: string): int
    requires IsIntText(s)
  {
    if s[0] == '-' then -(ParseNat(s[1..]) as int) else ParseNat(s)
  }

  /** std::to_string of an int. */
  function IntToString(i: int): (s: string)
    ensures IsIntText(s)
    ensures ParseInt(s) == i
    ensures (s[0] == '-') <==> i < 0
  {
    if i < 0 then "-" + NatToString(-i) else NatToString(i)
  }

  /** A number below ten prints as its one digit. */
  lemma SingleDigit(d: nat)
    requires d < 10
    ensures NatToString(d) == [DigitChar(d)]
  {
  }

  /** Distinct numbers print as distinct text. */
  lemma IntToStringInjective(a: int, b: int)
    requires IntToString(a) == IntToString(b)
    ensures a == b
  {
    assert ParseInt(IntToString(a)) == a;
  }

  /** A string of zeros reads as 0. */
  lemma {:induction false} ParseZeros(z: string)
    requires forall i :: 0 <= i < |z| ==> z[i] == '0'
    ensures AllDigits(z) && ParseNat(z) == 0
  {
    if |z| > 0 {
      ParseZeros(z[..|z| - 1]);
    }
  }

  /** Leading zeros do not change the value read. */
  lemma {:induction false} ParseLeadingZeros(z: string, s: string)
    requires forall i :: 0 <= i < |z| ==> z[i] == '0'
    requires AllDigits(s)
    ensures AllDigits(z + s) && ParseNat(z + s) == ParseNat(s)
  {
    if |s| == 0 {
      assert z + s == z;
      ParseZeros(z);
    } else {
      var t := z + s;
      assert t[..|t| - 1] == z + s[..|s| - 1];
      ParseLeadingZeros(z, s[..|s| - 1]);
    }
  }

  /** A value written in k digits is below 10^k. */
  lemma {:induction false} ParseNatBound(s: string)
    requires AllDigits(s)
    ensures ParseNat(s) < Pow10(|s|)
  {
    if |s| > 0 {
      ParseNatBound(s[..|s| - 1]);
    }
  }

  /** The shortest decimal of a value below 10^k has at most k digits. */
  lemma {:induction false} NatToStringLength(n: nat, k: nat)
    requires n < Pow10(k)
    ensures |NatToString(n)| <= k || (n == 0 && k == 0)
  {
    if n >= 10 {
      assert Pow10(0) == 1 && Pow10(1) == 10;
      assert k >= 2;
      assert n / 10 < Pow10(k - 1);
      NatToStringLength(n / 10, k - 1);
    } else if k == 0 {
      assert n == 0;
    }
  }

  function Zeros(k: nat): (z: string)
    ensures |z| == k && forall i :: 0 <= i < k ==> z[i] == '0'
  {
    if k == 0 then "" else Zeros(k - 1) + "0"
  }

  /** A non-negative value printed under std::setw(width) with std::setfill('0'):
      left-padded with zeros to at least width characters, never cut. */
  function ZeroPad(n: nat, width: nat): (s: string)
    ensures AllDigits(s) && ParseNat(s) == n
    ensures |s| == if |NatToString(n)| < width then width else |NatToString(n)|
    ensures s[|s| - |NatToString(n)|..] == NatToString(n)
  {
    var digits := NatToString(n);
    if |digits| < width then
      var z := Zeros(width - |digits|);
      ParseLeadingZeros(z, digits);
      assert (z + digits)[|z|..] == digits;
      z + digits
    else
      digits
  }

  /** std::string operator<: lexicographic order on characters. */
  predicate LexLess(s: string, t: string)
    decreases |s|
  {
    && 0 < |t|
    && (|s| == 0 || s[0] < t[0] || (s[0] == t[0] && LexLess(s[1..], t[1..])))
  }

  /** Reading a digit string from the front: the first digit weighs 10^(k-1). */
  lemma {:induction false} ParseNatFront(s: string)
    requires AllDigits(s) && 1 <= |s|
    ensures ParseNat(s) == DigitValue(s[0]) * Pow10(|s| - 1) + ParseNat(s[1..])
  {
    if |s| == 1 {
      assert s[..0] == "" && s[1..] == "";
    } else {
      var init, tail := s[..|s| - 1], s[1..];
      ParseNatFront(init);
      assert init[0] == s[0];
      assert init[1..] == tail[..|tail| - 1];
      assert tail[|tail| - 1] == s[|s| - 1];
      var d, p, r, last := DigitValue(s[0]), Pow10(|s| - 2), ParseNat(init[1..]), DigitValue(s[|s| - 1]);
      assert ParseNat(init) == d * p + r;
      assert ParseNat(s) == 10 * ParseNat(init) + last;
      assert ParseNat(tail) == 10 * r + last;
      assert Pow10(|s| - 1) == 10 * p;
      Regroup(d, p, r, last);
    }
  }

  lemma Regroup(d: int, p: int, r: int, last: int)
    ensures 10 * (d * p + r) + last == d * (10 * p) + (10 * r + last)
  {
  }

  /** For digit strings of one length, numeric order is lexicographic order. */
  lemma {:induction false} DigitOrderIsLexOrder(s: string, t: string)
    requires AllDigits(s) && AllDigits(t) && |s| == |t|
    requires ParseNat(s) < ParseNat(t)
    ensures LexLess(s, t)
  {
    if |s| == 0 {
      assert false;
    }
    ParseNatFront(s);
    ParseNatFront(t);
    var ds, dt := DigitValue(s[0]), DigitValue(t[0]);
    var p := Pow10(|s| - 1);
    ParseNatBound(t[1..]);
    if ds > dt {
      LeadingDigitDominates(ds, dt, p, ParseNat(s[1..]), ParseNat(t[1..]));
      assert false;
    } else if ds == dt {
      assert s[0] == t[0];
      DigitOrderIsLexOrder(s[1..], t[1..]);
    }
  }

  lemma LeadingDigitDominates(ds: nat, dt: nat, p: nat, x: nat, y: nat)
    requires dt < ds && y < p
    ensures dt * p + y < ds * p + x
  {
    var k := ds - dt;
    assert ds * p == dt * p + k * p;
    assert (k - 1) * p >= 0;
    assert k * p == (k - 1) * p + p;
  }

  /** A common prefix does not change the order. */
  lemma {:induction false} LexLessCommonPrefix(p: string, s: string, t: string)
    requires LexLess(s, t)
    ensures LexLess(p + s, p + t)
  {
    if |p| > 0 {
      assert (p + s)[0] == p[0] == (p + t)[0];
      assert (p + s)[1..] == p[1..] + s;
      assert (p + t)[1..] == p[1..] + t;
      LexLessCommonPrefix(p[1..], s, t);
    } else {
      assert p + s == s && p + t == t;
    }
  }

  /** Between strings of one length the order is decided at a differing
      character, so anything may follow. */
  lemma {:induction false} LexLessExtend(s: string, t: string, x: string, y: string)
    requires |s| == |t| && LexLess(s, t)
    ensures LexLess(s + x, t + y)
  {
    if s[0] == t[0] && !(s[0] < t[0]) {
      assert (s + x)[1..] == s[1..] + x;
      assert (t + y)[1..] == t[1..] + y;
      LexLessExtend(s[1..], t[1..], x, y);
    }
  }
}
