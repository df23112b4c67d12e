/** The few string operations of Python's `str` that the scripts rely on:
    `strip`, `split`, `join`, `lower`, `in` on strings, `isdigit`, `int`
    and the ordering `sorted` uses. */
module Text {
  import opened Wrappers

  /** The characters `str.isspace` accepts; `str.strip()` removes these. */
  const Whitespace: set<char> := {
    ' ', '\t', '\n', '\U{0B}', '\U{0C}', '\r', '\U{1C}', '\U{1D}', '\U{1E}', '\U{1F}',
    '\U{85}', '\U{A0}', '\U{1680}', '\U{2000}', '\U{2001}', '\U{2002}', '\U{2003}',
    '\U{2004}', '\U{2005}', '\U{2006}', '\U{2007}', '\U{2008}', '\U{2009}', '\U{200A}',
    '\U{2028}', '\U{2029}', '\U{202F}', '\U{205F}', '\U{3000}'
  }

  /** `s.lstrip(cs)`: drops the longest prefix made of characters of `cs`. */
  function TrimStart(s: string, cs: set<char>): (r: string)
    ensures |r| <= |s| && r == s[|s| - |r|..]
    ensures forall i :: 0 <= i < |s| - |r| ==> s[i] in cs
    ensures r == [] || r[0] !in cs
  {
    if s != [] && s[0] in cs then TrimStart(s[1..], cs) else s
  }

  /** `s.rstrip(cs)`: drops the longest suffix made of characters of `cs`. */
  function TrimEnd(s: string, cs: set<char>): (r: string)
    ensures |r| <= |s| && r == s[..|r|]
    ensures forall i :: |r| <= i < |s| ==> s[i] in cs
    ensures r == [] || r[|r| - 1] !in cs
  {
    if s != [] && s[|s| - 1] in cs then TrimEnd(s[..|s| - 1], cs) else s
  }

  /** `s.strip(cs)`. */
  function StripChars(s: string, cs: set<char>): string
  {
    TrimEnd(TrimStart(s, cs), cs)
  }

  /** `s.strip()`. */
  function Strip(s: string): string
  {
    StripChars(s, Whitespace)
  }

  /** Nothing is left of the empty string. */
  lemma StripCharsEmpty(cs: set<char>)
    ensures StripChars("", cs) == ""
  {
  }

  /** Stripping keeps a contiguous piece of the input whose two ends are
      kept characters, and everything dropped on either side is in `cs`. */
  lemma StripCharsShape(s: string, cs: set<char>)
    ensures var r := StripChars(s, cs);
      var lead := |s| - |TrimStart(s, cs)|;
      && lead + |r| <= |s|
      && r == s[lead..lead + |r|]
      && (forall i :: 0 <= i < lead ==> s[i] in cs)
      && (forall i :: lead + |r| <= i < |s| ==> s[i] in cs)
  {
    var t := TrimStart(s, cs);
    var r := TrimEnd(t, cs);
    var lead := |s| - |t|;
    assert r == s[lead..lead + |r|] by {
      assert r == t[..|r|];
    }
    forall i | lead + |r| <= i < |s| ensures s[i] in cs {
      assert s[i] == t[i - lead];
    }
  }

  /** The stripped string neither starts nor ends with a character of `cs`. */
  lemma StripCharsEnds(s: string, cs: set<char>)
    ensures var r := StripChars(s, cs); r != [] ==> r[0] !in cs && r[|r| - 1] !in cs
  {
    var t := TrimStart(s, cs);
    var r := TrimEnd(t, cs);
    if r != [] {
      assert r[0] == t[0];
    }
  }

  /** A string strips to nothing exactly when all its characters are in
      `cs`. */
  lemma StripCharsBlank(s: string, cs: set<char>)
    ensures StripChars(s, cs) == [] <==> forall i :: 0 <= i < |s| ==> s[i] in cs
  {
    var t := TrimStart(s, cs);
    assert StripChars(s, cs) == TrimEnd(t, cs);
  }

  /** Stripping twice is stripping once. */
  lemma StripIdempotent(s: string, cs: set<char>)
    ensures StripChars(StripChars(s, cs), cs) == StripChars(s, cs)
  {
    var r := StripChars(s, cs);
    if r != [] {
      assert TrimStart(r, cs) == r;
      assert TrimEnd(r, cs) == r;
    }
  }

  /** `sep.join(parts)`. */
  function Join(parts: seq<string>, sep: char): string
  {
    if parts == [] then []
    else if |parts| == 1 then parts[0]
    else parts[0] + [sep] + Join(parts[1..], sep)
  }

  /** `s.split(sep)` for a one-character separator: never empty, no part
      holds the separator, and joining the parts gives `s` back. */
  function Split(s: string, sep: char): (parts: seq<string>)
    ensures |parts| >= 1
    ensures forall i :: 0 <= i < |parts| ==> sep !in parts[i]
    ensures Join(parts, sep) == s
  {
    if s == [] then [[]]
    else
      var rest := Split(s[1..], sep);
      if s[0] == sep then
        assert Join([[]] + rest, sep) == [sep] + Join(rest, sep);
        [[]] + rest
      else
        var parts := [[s[0]] + rest[0]] + rest[1..];
        assert parts[1..] == rest[1..];
        assert Join(parts, sep) == [s[0]] + Join(rest, sep);
        parts
  }

  lemma {:induction false} SplitNoSep(a: string, sep: char)
    requires sep !in a
    ensures Split(a, sep) == [a]
  {
    if a != [] {
      SplitNoSep(a[1..], sep);
    }
  }

  lemma {:induction false} SplitAfterPiece(a: string, t: string, sep: char)
    requires sep !in a
    ensures Split(a + [sep] + t, sep) == [a] + Split(t, sep)
  {
    var s := a + [sep] + t;
    if a == [] {
      assert s[0] == sep && s[1..] == t;
    } else {
      assert s[0] == a[0] && s[0] != sep;
      assert s[1..] == a[1..] + [sep] + t;
      SplitAfterPiece(a[1..], t, sep);
      var rest := Split(s[1..], sep);
      assert rest == [a[1..]] + Split(t, sep);
      assert Split(s, sep) == [[s[0]] + rest[0]] + rest[1..];
      assert [a[0]] + a[1..] == a;
    }
  }

  /** Splitting undoes joining, for parts free of the separator. */
  lemma {:induction false} SplitJoin(parts: seq<string>, sep: char)
    requires |parts| >= 1
    requires forall i :: 0 <= i < |parts| ==> sep !in parts[i]
    ensures Split(Join(parts, sep), sep) == parts
  {
    if |parts| == 1 {
      SplitNoSep(parts[0], sep);
    } else {
      SplitJoin(parts[1..], sep);
      SplitAfterPiece(parts[0], Join(parts[1..], sep), sep);
      assert [parts[0]] + parts[1..] == parts;
    }
  }

  /** `s.lower()` restricted to ASCII letters. */
  function LowerChar(c: char): char
  {
    if 'A' <= c <= 'Z' then (c as int + 32) as char else c
  }

  function Lower(s: string): (r: string)
    ensures |r| == |s| && forall i :: 0 <= i < |s| ==> r[i] == LowerChar(s[i])
  {
    seq(|s|, i requires 0 <= i < |s| => LowerChar(s[i]))
  }

  /** `pat in s` stated with positions. */
  ghost predicate Occurs(pat: string, s: string)
  {
    exists i :: OccursAt(pat, s, i)
  }

  ghost predicate OccursAt(pat: string, s: string, i: int)
  {
    0 <= i <= |s| - |pat| && s[i..i + |pat|] == pat
  }

  lemma OccursStep(s: string, pat: string)
    ensures |pat| > |s| ==> !Occurs(pat, s)
    ensures |pat| <= |s| ==> (Occurs(pat, s) <==> s[..|pat|] == pat || Occurs(pat, s[1..]))
  {
    if |pat| <= |s| {
      if Occurs(pat, s) {
        var i :| OccursAt(pat, s, i);
        if i > 0 {
          assert s[1..][i - 1..i - 1 + |pat|] == pat;
          assert OccursAt(pat, s[1..], i - 1);
        }
      }
      if s != [] && Occurs(pat, s[1..]) {
        var i :| OccursAt(pat, s[1..], i);
        assert s[i + 1..i + 1 + |pat|] == pat;
        assert OccursAt(pat, s, i + 1);
      }
      if s[..|pat|] == pat {
        assert OccursAt(pat, s, 0);
      }
    }
  }

  /** `pat in s`, computed by trying each start position in turn. */
  function Contains(s: string, pat: string): (b: bool)
    ensures b <==> Occurs(pat, s)
  {
    OccursStep(s, pat);
    if |pat| > |s| then false
    else s[..|pat|] == pat || Contains(s[1..], pat)
  }

  predicate IsDigit(c: char)
  {
    '0' <= c <= '9'
  }

  /** `s.isdigit()` restricted to ASCII: true only for a non-empty string. */
  predicate AllDigits(s: string)
  {
    s != [] && forall i :: 0 <= i < |s| ==> IsDigit(s[i])
  }

  /** `"".join(ch for ch in s if ch.isdigit())`. */
  function DigitsOf(s: string): (r: string)
    ensures |r| <= |s|
    ensures forall i :: 0 <= i < |r| ==> IsDigit(r[i])
  {
    if s == [] then []
    else if IsDigit(s[0]) then [s[0]] + DigitsOf(s[1..])
    else DigitsOf(s[1..])
  }

  /** Removing non-digit characters from the ends of a string does not
      change its digits. */
  lemma {:induction false} DigitsOfTrimStart(s: string, cs: set<char>)
    requires forall c :: c in cs ==> !IsDigit(c)
    ensures DigitsOf(TrimStart(s, cs)) == DigitsOf(s)
  {
    if s != [] && s[0] in cs {
      assert !IsDigit(s[0]);
      DigitsOfTrimStart(s[1..], cs);
      assert DigitsOf(s) == DigitsOf(s[1..]);
    }
  }

  lemma {:induction false} DigitsOfAppend(a: string, b: string)
    ensures DigitsOf(a + b) == DigitsOf(a) + DigitsOf(b)
  {
    if a != [] {
      assert (a + b)[0] == a[0];
      assert (a + b)[1..] == a[1..] + b;
      DigitsOfAppend(a[1..], b);
      if IsDigit(a[0]) {
        assert DigitsOf(a) == [a[0]] + DigitsOf(a[1..]);
        assert DigitsOf(a + b) == [a[0]] + (DigitsOf(a[1..]) + DigitsOf(b));
      } else {
        assert DigitsOf(a + b) == DigitsOf(a[1..]) + DigitsOf(b);
      }
    } else {
      assert a + b == b;
    }
  }

  lemma {:induction false} DigitsOfTrimEnd(s: string, cs: set<char>)
    requires forall c :: c in cs ==> !IsDigit(c)
    ensures DigitsOf(TrimEnd(s, cs)) == DigitsOf(s)
  {
    if s != [] && s[|s| - 1] in cs {
      var p := s[..|s| - 1];
      DigitsOfTrimEnd(p, cs);
      assert s == p + [s[|s| - 1]];
      DigitsOfAppend(p, [s[|s| - 1]]);
    }
  }

  /** The digits of `s.strip(cs)` are the digits of `s` when `cs` holds no
      digit. */
  lemma {:induction false} DigitsOfStripChars(s: string, cs: set<char>)
    requires forall c :: c in cs ==> !IsDigit(c)
    ensures DigitsOf(StripChars(s, cs)) == DigitsOf(s)
  {
    DigitsOfTrimEnd(TrimStart(s, cs), cs);
    DigitsOfTrimStart(s, cs);
  }

  function DigitVal(c: char): nat
    requires IsDigit(c)
  {
    (c as int) - ('0' as int)
  }

  /** `int(s)` for a string made only of ASCII digits. */
  function DecimalValue(s: string): nat
    requires forall i :: 0 <= i < |s| ==> IsDigit(s[i])
  {
    if s == [] then 0
    else 10 * DecimalValue(s[..|s| - 1]) + DigitVal(s[|s| - 1])
  }

  function Pow10(n: nat): nat
  {
    if n == 0 then 1 else 10 * Pow10(n - 1)
  }

  lemma {:induction false} DecimalValueBound(s: string)
    requires forall i :: 0 <= i < |s| ==> IsDigit(s[i])
    ensures DecimalValue(s) < Pow10(|s|)
  {
    if s != [] {
      DecimalValueBound(s[..|s| - 1]);
    }
  }

  /** The body of a decimal literal as `int()` reads it: ASCII digits in
      groups parted by single underscores, none of them empty. */
  predicate DigitGroups(s: string)
  {
    var groups := Split(s, '_');
    forall i :: 0 <= i < |groups| ==> AllDigits(groups[i])
  }

  /** `int(s)` on an already stripped string: an optional sign and a
      digit-group body; the underscores carry no value. */
  function ParseInt(s: string): Option<int>
  {
    if s != [] && (s[0] == '-' || s[0] == '+') then
      if DigitGroups(s[1..]) then
        var v: int := DecimalValue(DigitsOf(s[1..]));
        Some(if s[0] == '-' then -v else v)
      else None
    else if DigitGroups(s) then Some(DecimalValue(DigitsOf(s)))
    else None
  }

  lemma {:induction false} DigitsOfDigits(s: string)
    requires forall i :: 0 <= i < |s| ==> IsDigit(s[i])
    ensures DigitsOf(s) == s
    decreases |s|
  {
    if s != [] {
      DigitsOfDigits(s[1..]);
    }
  }

  /** A plain run of digits is one group, read as its decimal value. */
  lemma PlainDigits(s: string)
    requires AllDigits(s)
    ensures DigitGroups(s) && DigitsOf(s) == s
  {
    assert '_' !in s by {
      assert forall i :: 0 <= i < |s| ==> s[i] != '_';
    }
    SplitNoSep(s, '_');
    DigitsOfDigits(s);
  }

  /** A run of digits, with or without a minus sign, is read as its value. */
  lemma ParseIntDigits(s: string)
    requires AllDigits(s)
    ensures ParseInt(s) == Some(DecimalValue(s))
    ensures ParseInt("-" + s) == Some(-(DecimalValue(s) as int))
  {
    PlainDigits(s);
    assert ("-" + s)[1..] == s;
  }

  /** `int("1_0")` is 10... */
  lemma ParseIntUnderscore()
    ensures ParseInt("1_0") == Some(10)
  {
    var s := "1_0";
    assert Split(s, '_') == ["1", "0"] by {
      SplitAfterPiece("1", "0", '_');
      SplitNoSep("0", '_');
      assert "1" + ['_'] + "0" == s;
    }
    assert DigitsOf(s) == "10" by {
      assert s[1..] == "_0" && s[1..][1..] == "0";
    }
    assert DecimalValue("10") == 10 by {
      assert "10"[..1] == "1";
    }
  }

  /** ...and a doubled underscore is refused. */
  lemma ParseIntDoubleUnderscore()
    ensures ParseInt("1__0") == None
  {
    var s := "1__0";
    assert Split(s, '_')[1] == "" by {
      SplitAfterPiece("1", "_0", '_');
      SplitAfterPiece("", "0", '_');
      assert "1" + ['_'] + "_0" == s;
      assert "" + ['_'] + "0" == "_0";
    }
  }

  function DigitChar(d: nat): (c: char)
    requires d < 10
    ensures IsDigit(c) && DigitVal(c) == d
  {
    ('0' as int + d) as char
  }

  /** `str(n)` for a natural number. */
  function NatToString(n: nat): (s: string)
    ensures AllDigits(s)
  {
    if n < 10 then [DigitChar(n)] else NatToString(n / 10) + [DigitChar(n % 10)]
  }

  /** `str(n)` for any integer. */
  function IntToString(n: int): string
  {
    if n < 0 then "-" + NatToString(-n) else NatToString(n)
  }

  lemma {:induction false} DecimalValueOfNatToString(n: nat)
    ensures DecimalValue(NatToString(n)) == n
  {
    if n >= 10 {
      DecimalValueOfNatToString(n / 10);
      var s := NatToString(n);
      assert s[..|s| - 1] == NatToString(n / 10);
    }
  }

  /** `int(str(n)) == n`. */
  lemma {:induction false} ParseIntToString(n: int)
    ensures ParseInt(IntToString(n)) == Some(n)
  {
    if n < 0 {
      DecimalValueOfNatToString(-n);
      ParseIntDigits(NatToString(-n));
    } else {
      DecimalValueOfNatToString(n);
      ParseIntDigits(NatToString(n));
    }
  }

  /** `a <= b` on Python strings: code point by code point, a proper
      prefix first. */
  predicate StrLe(a: string, b: string)
  {
    a == [] || (b != [] && (a[0] < b[0] || (a[0] == b[0] && StrLe(a[1..], b[1..]))))
  }

  lemma {:induction false} StrLeReflexive(a: string)
    ensures StrLe(a, a)
  {
    if a != [] {
      StrLeReflexive(a[1..]);
    }
  }

  lemma {:induction false} StrLeTotal(a: string, b: string)
    ensures StrLe(a, b) || StrLe(b, a)
  {
    if a != [] && b != [] && a[0] == b[0] {
      StrLeTotal(a[1..], b[1..]);
    }
  }

  lemma {:induction false} StrLeAntisymmetric(a: string, b: string)
    requires StrLe(a, b) && StrLe(b, a)
    ensures a == b
  {
    if a != [] && b != [] {
      StrLeAntisymmetric(a[1..], b[1..]);
      assert a == [a[0]] + a[1..] && b == [b[0]] + b[1..];
    }
  }

  lemma {:induction false} StrLeTransitive(a: string, b: string, c: string)
    requires StrLe(a, b) && StrLe(b, c)
    ensures StrLe(a, c)
  {
    if a != [] && b != [] && c != [] && a[0] == b[0] == c[0] {
      StrLeTransitive(a[1..], b[1..], c[1..]);
    }
  }

  ghost predicate SortedStrings(s: seq<string>)
  {
    forall i, j {:trigger StrLe(s[i], s[j])} :: 0 <= i < j < |s| ==> StrLe(s[i], s[j])
  }

  predicate Distinct<T(==)>(s: seq<T>)
  {
    forall i, j :: 0 <= i < j < |s| ==> s[i] != s[j]
  }

  predicate IsLeast(x: string, s: set<string>)
  {
    x in s && forall y :: y in s ==> StrLe(x, y)
  }

  lemma {:induction false} LeastExists(s: set<string>)
    requires s != {}
    ensures exists x :: IsLeast(x, s)
    decreases |s|
  {
    var y :| y in s;
    StrLeReflexive(y);
    if s == {y} {
      assert IsLeast(y, s);
    } else {
      LeastExists(s - {y});
      var x :| IsLeast(x, s - {y});
      StrLeTotal(x, y);
      if StrLe(x, y) {
        assert IsLeast(x, s);
      } else {
        forall z | z in s ensures StrLe(y, z) {
          if z != y { StrLeTransitive(y, x, z); }
        }
        assert IsLeast(y, s);
      }
    }
  }

  lemma LeastUnique()
    ensures forall s, x, y :: IsLeast(x, s) && IsLeast(y, s) ==> x == y
  {
    forall s, x, y | IsLeast(x, s) && IsLeast(y, s) ensures x == y {
      StrLeAntisymmetric(x, y);
    }
  }

  /** `sorted(s)` for a set of strings: the elements in ascending order,
      each once. */
  function SortedElements(s: set<string>): (r: seq<string>)
    ensures SortedStrings(r) && Distinct(r) && |r| == |s|
    ensures forall x :: x in r <==> x in s
    decreases |s|
  {
    if s == {} then []
    else
      LeastExists(s);
      LeastUnique();
      var x :| IsLeast(x, s);
      var rest := SortedElements(s - {x});
      assert forall i :: 0 <= i < |rest| ==> StrLe(x, rest[i]) && rest[i] != x by {
        forall i | 0 <= i < |rest| ensures StrLe(x, rest[i]) && rest[i] != x {
          assert rest[i] in rest;
        }
      }
      [x] + rest
  }

  /** Two ascending duplicate-free sequences with the same elements are the
      same sequence: `sorted` output does not depend on listing order. */
  lemma {:induction false} SortedUnique(a: seq<string>, b: seq<string>)
    requires SortedStrings(a) && Distinct(a) && SortedStrings(b) && Distinct(b)
    requires forall x :: x in a <==> x in b
    ensures a == b
  {
    if a != [] { assert a[0] in b; }
    if b != [] { assert b[0] in a; }
    if a != [] {
      assert a[0] in a && b[0] in b;
      var j :| 0 <= j < |a| && a[j] == b[0];
      var k :| 0 <= k < |b| && b[k] == a[0];
      StrLeReflexive(a[0]);
      StrLeReflexive(b[0]);
      assert StrLe(a[0], a[j]);
      assert StrLe(b[0], b[k]);
      StrLeAntisymmetric(a[0], b[0]);
      assert forall x :: x in a[1..] <==> x in b[1..] by {
        forall x ensures x in a[1..] <==> x in b[1..] {
          if x in a[1..] {
            assert x != a[0];
            assert x in b;
          }
          if x in b[1..] {
            assert x != b[0];
            assert x in a;
          }
        }
      }
      SortedUnique(a[1..], b[1..]);
      assert a == [a[0]] + a[1..] && b == [b[0]] + b[1..];
    }
  }

  predicate EndsWith(s: string, suffix: string)
  {
    |suffix| <= |s| && s[|s| - |suffix|..] == suffix
  }

  predicate StartsWith(s: string, prefix: string)
  {
    |prefix| <= |s| && s[..|prefix|] == prefix
  }
}
