/** Comma-separated text: joining fields, and splitting a line back into its
    fields the way a CSV reader does, where a comma inside double quotes does
    not separate fields. */
module Text {

  /** The fields with a single comma between neighbours and none at the end. */
  function Join(fields: seq<string>): string {
    if |fields| == 0 then ""
    else if |fields| == 1 then fields[0]
    else fields[0] + "," + Join(fields[1..])
  }

  /** Joining two non-empty lists puts exactly one comma between them. */
  lemma {:induction false} JoinAppend(a: seq<string>, b: seq<string>)
    requires 0 < |a| && 0 < |b|
    ensures Join(a + b) == Join(a) + "," + Join(b)
  {
    if |a| == 1 {
      assert (a + b)[1..] == b;
    } else {
      assert (a + b)[1..] == a[1..] + b;
      JoinAppend(a[1..], b);
    }
  }

  /** Three fields, two commas. */
  lemma JoinThree(a: string, b: string, c: string)
    ensures Join([a, b, c]) == a + "," + b + "," + c
  {
    assert [a, b, c][1..] == [b, c];
    assert [b, c][1..] == [c];
    assert Join([c]) == c;
    assert Join([b, c]) == b + "," + c;
  }

  /** Whether a reader is inside double quotes after reading s, having started in state q. */
  function QuotedAfter(s: string, q: bool): bool {
    if |s| == 0 then q else QuotedAfter(s[1..], if s[0] == '"' then !q else q)
  }

  /** No comma of s is read outside double quotes, starting in state q. */
  predicate NoBareComma(s: string, q: bool) {
    |s| == 0 || ((q || s[0] != ',') && NoBareComma(s[1..], if s[0] == '"' then !q else q))
  }

  /** A string that a CSV reader takes as one whole field: its commas are all
      quoted and it leaves the reader outside quotes. */
  predicate IsField(s: string) {
    NoBareComma(s, false) && !QuotedAfter(s, false)
  }

  /** The line split at commas outside double quotes, quotes kept in the fields. */
  function Fields(line: string): seq<string> {
    FieldsFrom(line, "", false)
  }

  function FieldsFrom(rest: string, current: string, q: bool): (fs: seq<string>)
    ensures 0 < |fs|
  {
    if |rest| == 0 then [current]
    else if rest[0] == ',' && !q then [current] + FieldsFrom(rest[1..], "", false)
    else FieldsFrom(rest[1..], current + [rest[0]], if rest[0] == '"' then !q else q)
  }

  /** Reading a string with no comma and no quote changes nothing. */
  lemma {:induction false} PlainText(s: string, q: bool)
    requires ',' !in s && '"' !in s
    ensures NoBareComma(s, q) && QuotedAfter(s, q) == q
  {
    if |s| > 0 {
      assert s[0] in s && forall c :: c in s[1..] ==> c in s;
      PlainText(s[1..], q);
    }
  }

  /** Inside quotes, a string without a quote character is read whole. */
  lemma {:induction false} QuotedText(s: string)
    requires '"' !in s
    ensures NoBareComma(s, true) && QuotedAfter(s, true)
  {
    if |s| > 0 {
      assert s[0] in s && forall c :: c in s[1..] ==> c in s;
      QuotedText(s[1..]);
    }
  }

  /** Reading a concatenation reads its parts in turn. */
  lemma {:induction false} ReadConcat(a: string, b: string, q: bool)
    ensures QuotedAfter(a + b, q) == QuotedAfter(b, QuotedAfter(a, q))
    ensures NoBareComma(a + b, q) == (NoBareComma(a, q) && NoBareComma(b, QuotedAfter(a, q)))
  {
    if |a| == 0 {
      assert a + b == b;
    } else {
      assert (a + b)[0] == a[0];
      assert (a + b)[1..] == a[1..] + b;
      ReadConcat(a[1..], b, if a[0] == '"' then !q else q);
    }
  }

  /** A field surrounded by double quotes, with no quote of its own, is one field. */
  lemma QuotedIsField(s: string)
    requires '"' !in s
    ensures IsField("\"" + s + "\"")
  {
    QuotedText(s);
    ReadConcat("\"", s, false);
    ReadConcat("\"" + s, "\"", false);
  }

  /** A string without commas or quotes is one field. */
  lemma PlainIsField(s: string)
    requires ',' !in s && '"' !in s
    ensures IsField(s)
  {
    PlainText(s, false);
  }

  /** A reader passes over a string with no bare comma without splitting it. */
  lemma {:induction false} ReadWithinField(f: string, rest: string, current: string, q: bool)
    requires NoBareComma(f, q)
    ensures FieldsFrom(f + rest, current, q) == FieldsFrom(rest, current + f, QuotedAfter(f, q))
  {
    if |f| == 0 {
      assert f + rest == rest && current + f == current;
    } else {
      var q' := if f[0] == '"' then !q else q;
      assert (f + rest)[0] == f[0];
      assert (f + rest)[1..] == f[1..] + rest;
      ReadWithinField(f[1..], rest, current + [f[0]], q');
      assert current + [f[0]] + f[1..] == current + f;
    }
  }

  /** Splitting undoes joining, when every part is a whole field. */
  lemma {:induction false} FieldsOfJoin(fields: seq<string>)
    requires 0 < |fields|
    requires forall i :: 0 <= i < |fields| ==> IsField(fields[i])
    ensures Fields(Join(fields)) == fields
  {
    var f := fields[0];
    if |fields| == 1 {
      ReadWithinField(f, "", "", false);
      assert f + "" == f && "" + f == f;
    } else {
      var rest := Join(fields[1..]);
      ReadWithinField(f, "," + rest, "", false);
      assert f + "," + rest == f + ("," + rest);
      assert ("," + rest)[1..] == rest;
      assert "" + f == f;
      FieldsOfJoin(fields[1..]);
      assert fields == [f] + fields[1..];
    }
  }

  /** A character in none of the fields is not in their join, unless it is the comma. */
  lemma {:induction false} JoinExcludes(fields: seq<string>, c: char)
    requires c != ','
    requires forall i :: 0 <= i < |fields| ==> c !in fields[i]
    ensures c !in Join(fields)
  {
    if |fields| > 1 {
      JoinExcludes(fields[1..], c);
    }
  }

  /** The three parts of base + middle + tail, cut back out. */
  lemma Framed(base: string, middle: string, tail: string)
    ensures var s := base + middle + tail;
      && s[..|base|] == base
      && s[|base|..|s| - |tail|] == middle
      && s[|s| - |tail|..] == tail
  {
  }

  /** std::string::find(c): the first position of c, or -1 for npos. */
  function IndexOf(s: string, c: char): (i: int)
    ensures -1 <= i < |s|
    ensures i == -1 <==> c !in s
    ensures 0 <= i ==> s[i] == c && c !in s[..i]
  {
    if |s| == 0 then -1
    else if s[0] == c then 0
    else
      var j := IndexOf(s[1..], c);
      SplitFirst(s, c);
      if j == -1 then -1
      else
        assert s[..j + 1] == [s[0]] + s[1..][..j];
        j + 1
  }

  /** A character other than the first is in s when it is in the rest. */
  lemma SplitFirst(s: string, c: char)
    requires 0 < |s| && s[0] != c
    ensures c in s <==> c in s[1..]
  {
    assert s == [s[0]] + s[1..];
  }

  /** A character other than the last is in s when it is in the front. */
  lemma SplitLast(s: string, c: char)
    requires 0 < |s| && s[|s| - 1] != c
    ensures c in s <==> c in s[..|s| - 1]
  {
    assert s == s[..|s| - 1] + [s[|s| - 1]];
  }

  /** std::string::find_last_of(c): the last position of c, or -1 for npos. */
  function LastIndexOf(s: string, c: char): (i: int)
    ensures -1 <= i < |s|
    ensures i == -1 <==> c !in s
    ensures 0 <= i ==> s[i] == c && c !in s[i + 1..]
  {
    if |s| == 0 then -1
    else if s[|s| - 1] == c then |s| - 1
    else
      var front := s[..|s| - 1];
      var j := LastIndexOf(front, c);
      SplitLast(s, c);
      if j == -1 then -1
      else
        assert s[j + 1..] == front[j + 1..] + [s[|s| - 1]];
        SplitLast(s[j + 1..], c);
        j
  }

  /** The last c of p + [c] + t is the one between them when t holds none. */
  lemma LastIndexOfSeparator(p: string, c: char, t: string)
    requires c !in t
    ensures LastIndexOf(p + [c] + t, c) == |p|
  {
    assert (p + [c] + t)[|p|] == c;
  }
}
