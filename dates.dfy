/** Calendar dates as `datetime.date` has them: `strptime(s, "%Y-%m-%d")`,
    the ordering `<` and `isoformat()`. */
module Dates {
  import opened Wrappers
  import opened Text

  datatype Date = Date(year: int, month: int, day: int)

  /** Leap years of the proleptic Gregorian calendar. */
  predicate IsLeapYear(y: int)
  {
    (y % 4 == 0 && y % 100 != 0) || y % 400 == 0
  }

  function DaysInMonth(y: int, m: int): int
    requires 1 <= m <= 12
  {
    if m == 2 then (if IsLeapYear(y) then 29 else 28)
    else if m == 4 || m == 6 || m == 9 || m == 11 then 30
    else 31
  }

  /** What `datetime.date` accepts: years 1 to 9999, months 1 to 12, and a
      day within the month. */
  predicate ValidDate(d: Date)
  {
    1 <= d.year <= 9999 && 1 <= d.month <= 12 && 1 <= d.day <= DaysInMonth(d.year, d.month)
  }

  /** `a < b` on dates: by year, then month, then day. */
  predicate Before(a: Date, b: Date)
  {
    a.year < b.year || (a.year == b.year && (a.month < b.month || (a.month == b.month && a.day < b.day)))
  }

  /** `Before` is a strict total order. */
  lemma BeforeOrder(a: Date, b: Date, c: Date)
    ensures !Before(a, a)
    ensures Before(a, b) ==> !Before(b, a)
    ensures Before(a, b) && Before(b, c) ==> Before(a, c)
    ensures a == b || Before(a, b) || Before(b, a)
  {
  }

  /** `n` written with exactly `width` decimal digits, zero-padded on the
      left (`"%0*d" % (width, n)` for `n < 10^width`). */
  function Pad(n: nat, width: nat): (s: string)
    ensures |s| == width && forall i :: 0 <= i < |s| ==> IsDigit(s[i])
  {
    if width == 0 then [] else Pad(n / 10, width - 1) + [DigitChar(n % 10)]
  }

  lemma {:induction false} PadValue(n: nat, width: nat)
    requires n < Pow10(width)
    ensures DecimalValue(Pad(n, width)) == n
  {
    if width > 0 {
      PadValue(n / 10, width - 1);
      var s := Pad(n, width);
      assert s[..|s| - 1] == Pad(n / 10, width - 1);
    }
  }

  lemma {:induction false} PadOfValue(s: string)
    requires forall i :: 0 <= i < |s| ==> IsDigit(s[i])
    ensures Pad(DecimalValue(s), |s|) == s
  {
    if s != [] {
      var p := s[..|s| - 1];
      PadOfValue(p);
      var v := DecimalValue(s);
      assert v == 10 * DecimalValue(p) + DigitVal(s[|s| - 1]);
      assert v / 10 == DecimalValue(p) && v % 10 == DigitVal(s[|s| - 1]);
      assert DigitChar(DigitVal(s[|s| - 1])) == s[|s| - 1];
      assert s == p + [s[|s| - 1]];
    }
  }

  /** `d.isoformat()`: `YYYY-MM-DD`. */
  function IsoFormat(d: Date): (s: string)
    requires ValidDate(d)
    ensures |s| == 10
  {
    Pad(d.year, 4) + "-" + Pad(d.month, 2) + "-" + Pad(d.day, 2)
  }

  /** The `%m` field of `strptime`, `1[0-2]|0[1-9]|[1-9]`: a month with
      or without its leading zero. */
  predicate MonthField(f: string)
  {
    || (|f| == 1 && '1' <= f[0] <= '9')
    || (|f| == 2 && f[0] == '0' && '1' <= f[1] <= '9')
    || (|f| == 2 && f[0] == '1' && '0' <= f[1] <= '2')
  }

  /** The `%d` field, `3[01]|[12]\d|0[1-9]|[1-9]| [1-9]`: a day with a
      leading zero, a leading blank or neither. */
  predicate DayField(f: string)
  {
    || (|f| == 1 && '1' <= f[0] <= '9')
    || (|f| == 2 && (f[0] == '0' || f[0] == ' ') && '1' <= f[1] <= '9')
    || (|f| == 2 && (f[0] == '1' || f[0] == '2') && IsDigit(f[1]))
    || (|f| == 2 && f[0] == '3' && (f[1] == '0' || f[1] == '1'))
  }

  /** `int(f)` of a month or day field; the blank is ignored. */
  function FieldValue(f: string): nat
    requires MonthField(f) || DayField(f)
  {
    if |f| == 2 && f[0] == ' ' then DigitVal(f[1]) else DecimalValue(f)
  }

  /** A ten-character field triple without a blank is zero-padded. */
  lemma PaddedFields(y: string, m: string, d: string)
    requires |y| == 4 && AllDigits(y) && MonthField(m) && DayField(d)
    requires |y| + |m| + |d| == 8 && ' ' !in d
    ensures |m| == 2 && |d| == 2 && AllDigits(m) && AllDigits(d)
    ensures FieldValue(m) == DecimalValue(m) && FieldValue(d) == DecimalValue(d)
  {
    assert d[0] != ' ' by { assert d[0] in d; }
  }

  /** `datetime.strptime(s, "%Y-%m-%d").date()`, or `None` where it raises
      `ValueError`: four digits, a dash, a month field, a dash and a day
      field, making up the whole string and naming a real date. Ten
      characters without a blank are exactly the ISO form of the result. */
  function ParseDate(s: string): (r: Option<Date>)
    ensures r.Some? ==> ValidDate(r.value)
    ensures r.Some? && |s| == 10 && ' ' !in s ==> IsoFormat(r.value) == s
  {
    var parts := Split(s, '-');
    if |parts| == 3 && |parts[0]| == 4 && AllDigits(parts[0]) && MonthField(parts[1]) && DayField(parts[2]) then
      var d := Date(DecimalValue(parts[0]), FieldValue(parts[1]), FieldValue(parts[2]));
      if ValidDate(d) then
        IsoOfFields(s, parts, d);
        Some(d)
      else None
    else None
  }

  lemma IsoOfFields(s: string, parts: seq<string>, d: Date)
    requires |parts| == 3 && Join(parts, '-') == s
    requires |parts[0]| == 4 && AllDigits(parts[0]) && MonthField(parts[1]) && DayField(parts[2])
    requires d == Date(DecimalValue(parts[0]), FieldValue(parts[1]), FieldValue(parts[2])) && ValidDate(d)
    ensures |s| == 10 && ' ' !in s ==> IsoFormat(d) == s
  {
    Join3(parts, '-');
    if |s| == 10 && ' ' !in s {
      assert ' ' !in parts[2] by {
        forall i | 0 <= i < |parts[2]| ensures parts[2][i] != ' ' {
          assert parts[2][i] == s[|parts[0]| + |parts[1]| + 2 + i];
        }
      }
      PaddedFields(parts[0], parts[1], parts[2]);
      PadOfValue(parts[0]);
      PadOfValue(parts[1]);
      PadOfValue(parts[2]);
    }
  }

  /** Every valid date is read back from its ISO form. */
  lemma {:induction false} ParseIsoFormat(d: Date)
    requires ValidDate(d)
    ensures ParseDate(IsoFormat(d)) == Some(d)
  {
    var y, m, dd := Pad(d.year, 4), Pad(d.month, 2), Pad(d.day, 2);
    PadsValue(d);
    MonthPad(d.month);
    DayPad(d.day);
    assert FieldValue(m) == d.month by {
      assert IsDigit(m[0]);
    }
    assert FieldValue(dd) == d.day by {
      assert IsDigit(dd[0]);
    }
    assert AllDigits(y);
    assert Date(DecimalValue(y), FieldValue(m), FieldValue(dd)) == d;
    ParseDateOfFields(IsoFormat(d), y, m, dd);
  }

  lemma MonthPad(n: int)
    requires 1 <= n <= 12
    ensures MonthField(Pad(n, 2))
  {
    TwoDigits(n);
    if n < 10 {
      assert n / 10 == 0 && n % 10 == n;
    } else {
      assert n / 10 == 1 && n % 10 == n - 10;
    }
  }

  lemma DayPad(n: int)
    requires 1 <= n <= 31
    ensures DayField(Pad(n, 2))
  {
    TwoDigits(n);
    var q := n / 10;
    assert 0 <= q <= 3 && n == 10 * q + n % 10;
  }

  lemma PadsValue(d: Date)
    requires ValidDate(d)
    ensures DecimalValue(Pad(d.year, 4)) == d.year
    ensures DecimalValue(Pad(d.month, 2)) == d.month
    ensures DecimalValue(Pad(d.day, 2)) == d.day
  {
    assert Pow10(2) == 100 && Pow10(4) == 10000 by {
      assert Pow10(0) == 1;
      assert Pow10(1) == 10;
      assert Pow10(3) == 1000;
    }
    PadValue(d.year, 4);
    PadValue(d.month, 2);
    PadValue(d.day, 2);
  }

  lemma Join3(parts: seq<string>, sep: char)
    requires |parts| == 3
    ensures Join(parts, sep) == parts[0] + [sep] + parts[1] + [sep] + parts[2]
  {
    var rest := parts[1..];
    assert |rest| == 2 && rest[0] == parts[1] && rest[1..] == [parts[2]];
    assert Join(rest, sep) == parts[1] + [sep] + parts[2];
  }

  /** The two digits of a number below 100. */
  lemma TwoDigits(n: nat)
    requires n < 100
    ensures Pad(n, 2) == [DigitChar(n / 10), DigitChar(n % 10)]
  {
    var q := n / 10;
    assert q < 10;
    assert Pad(q, 1) == Pad(q / 10, 0) + [DigitChar(q % 10)];
    assert q % 10 == q;
  }

  /** `2010-05-01` is read as that date. */
  lemma ParseDateExample()
    ensures ParseDate("2010-05-01") == Some(Date(2010, 5, 1))
  {
    var d := Date(2010, 5, 1);
    ParseIsoFormat(d);
    assert IsoFormat(d) == "2010-05-01";
  }

  /** A month of 13 is refused. */
  lemma ParseDateRejectsMonth()
    ensures ParseDate("2010-13-01") == None
  {
    var s := "2010-13-01";
    SplitJoin(["2010", "13", "01"], '-');
    Join3(["2010", "13", "01"], '-');
  }

  /** Month and day may drop their leading zero... */
  lemma ParseDateShortFields()
    ensures ParseDate("2010-5-1") == Some(Date(2010, 5, 1))
  {
    YearDigits();
    assert FieldValue("5") == 5 && FieldValue("1") == 1 by {
      assert "5"[..0] == [] && "1"[..0] == [];
    }
    ParseDateOfFields("2010-5-1", "2010", "5", "1");
  }

  /** ...and the day may be padded with a blank instead. */
  lemma ParseDateBlankDay()
    ensures ParseDate("2010-05- 1") == Some(Date(2010, 5, 1))
  {
    YearDigits();
    assert DecimalValue("05") == 5 by { assert "05"[..1] == "0"; }
    ParseDateOfFields("2010-05- 1", "2010", "05", " 1");
  }

  lemma ParseDateOfFields(s: string, y: string, m: string, d: string)
    requires s == y + "-" + m + "-" + d
    requires |y| == 4 && AllDigits(y) && MonthField(m) && DayField(d)
    requires ValidDate(Date(DecimalValue(y), FieldValue(m), FieldValue(d)))
    ensures ParseDate(s) == Some(Date(DecimalValue(y), FieldValue(m), FieldValue(d)))
  {
    assert '-' !in y && '-' !in m && '-' !in d by {
      assert forall i :: 0 <= i < |y| ==> IsDigit(y[i]);
    }
    SplitFields(s, y, m, d);
  }

  lemma SplitFields(s: string, y: string, m: string, d: string)
    requires s == y + "-" + m + "-" + d
    requires '-' !in y && '-' !in m && '-' !in d
    ensures Split(s, '-') == [y, m, d]
  {
    SplitJoin([y, m, d], '-');
    Join3([y, m, d], '-');
  }

  lemma YearDigits()
    ensures DecimalValue("2010") == 2010
  {
    assert "2010"[..3] == "201" && "201"[..2] == "20" && "20"[..1] == "2";
  }

  /** A day with three characters is refused. */
  lemma ParseDateRejectsLongDay()
    ensures ParseDate("2010-05-011") == None
  {
    SplitJoin(["2010", "05", "011"], '-');
    Join3(["2010", "05", "011"], '-');
  }

  /** February 29 exists only in leap years. */
  lemma ParseDateLeapDay()
    ensures ParseDate("2012-02-29") == Some(Date(2012, 2, 29))
  {
    var e := Date(2012, 2, 29);
    ParseIsoFormat(e);
    assert IsoFormat(e) == "2012-02-29";
  }
}
