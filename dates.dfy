/**
 * Dates of the experience section (sections/experience.py, parse_date_safe and the
 * `strftime("%b %Y")` renderings): "Jun 2019" or "2019" read as a calendar month.
 */
module Dates {
  import opened Wrappers
  import opened Strings

  /**
   * A parsed date. Every datetime the code builds has day 1 and midnight, so ordering them is
   * ordering (year, month) lexicographically.
   */
  datatype YearMonth = YearMonth(year: int, month: int)

  /** The dates a datetime can hold, at month granularity. */
  predicate Valid(d: YearMonth) {
    1 <= d.year <= 9999 && 1 <= d.month <= 12
  }

  /** `a < b` on datetimes. */
  predicate Before(a: YearMonth, b: YearMonth) {
    a.year < b.year || (a.year == b.year && a.month < b.month)
  }

  /** `a <= b` on datetimes. */
  predicate NotAfter(a: YearMonth, b: YearMonth) {
    !Before(b, a)
  }

  /** The month of `datetime.min` (1 January of year 1), the sort key of an unparsed start. */
  const MinDate: YearMonth := YearMonth(1, 1)

  /** English abbreviations, as `%b` renders them. */
  const MonthNames: seq<string> :=
    ["Jan", "Feb", "Mar", "Apr", "May", "Jun", "Jul", "Aug", "Sep", "Oct", "Nov", "Dec"]

  /** The same abbreviations lower-cased, as `%b` recognises them (ignoring case). */
  const LowerMonthNames: seq<string> :=
    ["jan", "feb", "mar", "apr", "may", "jun", "jul", "aug", "sep", "oct", "nov", "dec"]

  /** Month number (1 to 12) of the first abbreviation at index `i` or later that `name` spells. */
  function MonthNumber(name: string, i: nat): (r: Option<int>)
    requires i <= 12
    ensures r.Some? ==> i < r.value <= 12 && EqualsIgnoringCase(name, LowerMonthNames[r.value - 1])
    ensures r.None? ==> forall j :: i <= j < 12 ==> !EqualsIgnoringCase(name, LowerMonthNames[j])
    decreases 12 - i
  {
    if i == 12 then None
    else if EqualsIgnoringCase(name, LowerMonthNames[i]) then Some(i + 1)
    else MonthNumber(name, i + 1)
  }

  /**
   * `strptime(s, "%b %Y")`: a month abbreviation in any case, one or more `\s` characters, and
   * exactly four digits, the whole text; year 0 is rejected by datetime.
   */
  function ParseMonthYear(s: string): (r: Option<YearMonth>)
    ensures r.Some? ==> Valid(r.value) && |s| >= 8
    ensures r.Some? ==> EqualsIgnoringCase(s[..3], LowerMonthNames[r.value.month - 1])
    ensures r.Some? ==> AllDigits(s[|s| - 4..]) && ParseNat(s[|s| - 4..]) == r.value.year
  {
    if |s| < 3 then None
    else match MonthNumber(s[..3], 0)
      case None => None
      case Some(m) =>
        var w := SpaceRun(s[3..]);
        var digits := s[3 + w..];
        if w > 0 && |digits| == 4 && AllDigits(digits) && ParseNat(digits) >= 1
        then
          assert ParseNat(digits) <= 9999 by { ParseNatBound(digits); }
          assert s[|s| - 4..] == digits;
          Some(YearMonth(ParseNat(digits), m))
        else None
  }

  /**
   * Exactly the texts "%b %Y" accepts: an abbreviation, then nothing but `\s` characters (at least
   * one) up to four final digits that spell a year of 1 or more; the result is that month and year.
   */
  lemma ParseMonthYearAccepts(s: string)
    ensures ParseMonthYear(s).Some? <==>
              && |s| >= 8
              && MonthNumber(s[..3], 0).Some?
              && (forall i :: 3 <= i < |s| - 4 ==> IsSpace(s[i]))
              && AllDigits(s[|s| - 4..]) && ParseNat(s[|s| - 4..]) >= 1
    ensures ParseMonthYear(s).Some? ==>
              ParseMonthYear(s).value == YearMonth(ParseNat(s[|s| - 4..]), MonthNumber(s[..3], 0).value)
  {
    if |s| >= 3 {
      SeparatorRun(s);
    }
  }

  /**
   * After the abbreviation, the longest `\s` run followed by exactly four digits is the same as
   * every character but the last four being `\s` (digits are not `\s`).
   */
  lemma SeparatorRun(s: string)
    requires |s| >= 3
    ensures var w := SpaceRun(s[3..]);
            (w > 0 && |s[3 + w..]| == 4 && AllDigits(s[3 + w..])) <==>
            (|s| >= 8 && (forall i :: 3 <= i < |s| - 4 ==> IsSpace(s[i])) && AllDigits(s[|s| - 4..]))
    ensures var w := SpaceRun(s[3..]); |s[3 + w..]| == 4 ==> s[3 + w..] == s[|s| - 4..]
  {
    var t := s[3..];
    var w := SpaceRun(t);
    if |s| >= 8 && (forall i :: 3 <= i < |s| - 4 ==> IsSpace(s[i])) && AllDigits(s[|s| - 4..]) {
      var k := |s| - 7;
      assert t[k] == s[|s| - 4..][0];
      assert !IsSpace(t[k]);
      forall j | 0 <= j < k
        ensures IsSpace(t[j])
      {
        assert t[j] == s[3 + j];
      }
    }
    if w > 0 && |s[3 + w..]| == 4 {
      forall i | 3 <= i < |s| - 4
        ensures IsSpace(s[i])
      {
        assert t[i - 3] == s[i];
      }
    }
  }

  /** `strptime(s, "%Y")`: exactly four digits, year 0 rejected, month 1. */
  function ParseYear(s: string): (r: Option<YearMonth>)
    ensures r.Some? <==> |s| == 4 && AllDigits(s) && ParseNat(s) >= 1
    ensures r.Some? ==> Valid(r.value) && r.value == YearMonth(ParseNat(s), 1)
  {
    if |s| == 4 && AllDigits(s) && ParseNat(s) >= 1 then
      assert ParseNat(s) <= 9999 by { ParseNatBound(s); }
      Some(YearMonth(ParseNat(s), 1))
    else None
  }

  /**
   * parse_date_safe: the month-year form first, then the bare year, None otherwise. An absent
   * field makes both `strptime` calls raise, which is swallowed too.
   */
  function ParseDate(text: Option<string>): (r: Option<YearMonth>)
    ensures r.Some? ==> Valid(r.value)
  {
    if text.None? then None
    else
      match ParseMonthYear(text.value)
      case Some(d) => Some(d)
      case None => ParseYear(text.value)
  }

  /** Empty text is not a date. */
  lemma ParseDateEmpty()
    ensures ParseDate(Some("")) == None
  {
  }

  /** `%Y`: the year in decimal, zero-padded to four digits. */
  function Year4(year: nat): string
  {
    var ds := NatToString(year);
    Zeros(if |ds| < 4 then 4 - |ds| else 0) + ds
  }

  /** `strftime("%b %Y")`. */
  function FormatDate(d: YearMonth): (r: string)
    requires Valid(d)
    ensures |r| == 8 && r[..3] == MonthNames[d.month - 1] && r[3] == ' '
    ensures EqualsIgnoringCase(r[..3], LowerMonthNames[d.month - 1])
    ensures AllDigits(r[4..]) && ParseNat(r[4..]) == d.year
  {
    var name, year := MonthNames[d.month - 1], Year4(d.year);
    assert |year| == 4 && AllDigits(year) && ParseNat(year) == d.year by { Year4ReadsBack(d.year); }
    assert EqualsIgnoringCase(name, LowerMonthNames[d.month - 1]) by { SpellsOwnMonth(d.month - 1); }
    assert (name + " " + year)[..3] == name && (name + " " + year)[4..] == year;
    name + " " + year
  }

  /** The lower-case abbreviations are twelve different words. */
  lemma LowerNamesDistinct(i: nat, j: nat)
    requires i < 12 && j < 12 && i != j
    ensures LowerMonthNames[i] != LowerMonthNames[j]
  {
    var a, b := LowerMonthNames[i], LowerMonthNames[j];
    assert a[0] != b[0] || a[1] != b[1] || a[2] != b[2];
  }

  /** Each rendered abbreviation spells its own month, ignoring case. */
  lemma SpellsOwnMonth(i: nat)
    requires i < 12
    ensures EqualsIgnoringCase(MonthNames[i], LowerMonthNames[i])
  {
    var n := MonthNames[i];
    assert Lower(n[0]) == LowerMonthNames[i][0];
  }

  /** ... and no other month. */
  lemma SpellsOnlyOwnMonth(i: nat, j: nat)
    requires i < 12 && j < 12
    requires EqualsIgnoringCase(MonthNames[i], LowerMonthNames[j])
    ensures i == j
  {
    SpellsOwnMonth(i);
    var n := MonthNames[i];
    assert LowerMonthNames[i][0] == Lower(n[0]) == LowerMonthNames[j][0];
    assert LowerMonthNames[i][1] == Lower(n[1]) == LowerMonthNames[j][1];
    assert LowerMonthNames[i][2] == Lower(n[2]) == LowerMonthNames[j][2];
    assert LowerMonthNames[i] == LowerMonthNames[j];
    if i != j {
      LowerNamesDistinct(i, j);
    }
  }

  /** `%b` reads any spelling of an abbreviation as that month's number. */
  lemma MonthNumberOfSpelling(name: string, i: nat)
    requires i < 12 && EqualsIgnoringCase(name, LowerMonthNames[i])
    ensures MonthNumber(name, 0) == Some(i + 1)
  {
    var r := MonthNumber(name, 0);
    var j := r.value - 1;
    assert LowerMonthNames[i] == LowerMonthNames[j] by {
      assert |LowerMonthNames[i]| == |name| == |LowerMonthNames[j]|;
      forall k | 0 <= k < |name|
        ensures LowerMonthNames[i][k] == LowerMonthNames[j][k]
      {
        assert Lower(name[k]) == LowerMonthNames[i][k];
      }
    }
    if i != j {
      LowerNamesDistinct(i, j);
    }
  }

  /** `%b` reads a rendered abbreviation back as its own month number. */
  lemma MonthNumberOfName(i: nat)
    requires i < 12
    ensures MonthNumber(MonthNames[i], 0) == Some(i + 1)
  {
    SpellsOwnMonth(i);
    MonthNumberOfSpelling(MonthNames[i], i);
  }

  /** "%b %Y" reads an abbreviation, one space and four digits as that month of that year. */
  lemma ReadMonthYear(name: string, i: nat, y: string)
    requires i < 12 && EqualsIgnoringCase(name, LowerMonthNames[i])
    requires |y| == 4 && AllDigits(y) && ParseNat(y) >= 1
    ensures ParseMonthYear(name + " " + y) == Some(YearMonth(ParseNat(y), i + 1))
  {
    var s := name + " " + y;
    assert s[..3] == name;
    MonthNumberOfSpelling(name, i);
    assert s[3..] == " " + y;
    SpaceRunBeforeDigit(s[3..]);
    assert s[4..] == y;
  }

  /** A year of at most four digits renders as four digits that read back as that year. */
  lemma Year4ReadsBack(year: nat)
    requires year <= 9999
    ensures |Year4(year)| == 4 && AllDigits(Year4(year)) && ParseNat(Year4(year)) == year
  {
    var ds := NatToString(year);
    NatToStringRoundTrip(year);
    NatToStringLength(year, 4);
    ParseNatLeadingZeros(4 - |ds|, ds);
  }

  /** The "%b %Y" reading of a rendered date gives the same month and year. */
  lemma MonthYearReadsBack(d: YearMonth)
    requires Valid(d)
    ensures ParseMonthYear(FormatDate(d)) == Some(d)
  {
    Year4ReadsBack(d.year);
    SpellsOwnMonth(d.month - 1);
    ReadMonthYear(MonthNames[d.month - 1], d.month - 1, Year4(d.year));
  }

  /** Reading back a rendered date gives the same month and year. */
  lemma {:induction false} DateRoundTrip(d: YearMonth)
    requires Valid(d)
    ensures ParseDate(Some(FormatDate(d))) == Some(d)
  {
    MonthYearReadsBack(d);
  }

  /** Sample reading: the month abbreviation is read ignoring case. */
  lemma ParseMonthYearExample()
    ensures ParseDate(Some("jun 2019")) == Some(YearMonth(2019, 6))
  {
    var name, year := "jun", "2019";
    assert AllDigits(year) && ParseNat(year) == 2019 by {
      ParseNatFour(year);
    }
    assert EqualsIgnoringCase(name, LowerMonthNames[5]) by {
      assert LowerMonthNames[5] == "jun";
    }
    ReadMonthYear(name, 5, year);
    assert name + " " + year == "jun 2019";
  }

  /** Sample reading: only three-letter abbreviations are months. */
  lemma LongMonthNameExample()
    ensures ParseDate(Some("Sept 2019")) == None
  {
    assert "Sept 2019"[..3] == "Sep" == MonthNames[8];
    MonthNumberOfName(8);
    assert "Sept 2019"[3..] == "t 2019";
  }

  /** Sample reading: a bare year is January of it. */
  lemma ParseYearExample()
    ensures ParseDate(Some("2019")) == Some(YearMonth(2019, 1))
  {
    ParseNatFour("2019");
    assert ParseMonthYear("2019") == None by {
      var r := MonthNumber("201", 0);
      if r.Some? {
        assert Lower('2') == LowerMonthNames[r.value - 1][0];
      }
    }
  }

  /** Sample reading: datetime has no year 0. */
  lemma YearZeroExample()
    ensures ParseDate(Some("0000")) == None
  {
    ParseNatFour("0000");
    assert ParseMonthYear("0000") == None by {
      var r := MonthNumber("000", 0);
      if r.Some? {
        assert Lower('0') == LowerMonthNames[r.value - 1][0];
      }
    }
  }

  /** Sample reading: the word "Present" is not a date. */
  lemma PresentExample()
    ensures ParseDate(Some("Present")) == None
  {
    assert ParseMonthYear("Present") == None by {
      assert "Present"[..3] == "Pre";
      var r := MonthNumber("Pre", 0);
      if r.Some? {
        assert Lower('P') == LowerMonthNames[r.value - 1][0];
      }
    }
  }

  /** Sample reading: text that is neither form is not a date. */
  lemma NotADateExample()
    ensures ParseDate(Some("not-a-date")) == None
  {
    assert ParseMonthYear("not-a-date") == None by {
      assert "not-a-date"[..3] == "not";
      var r := MonthNumber("not", 0);
      if r.Some? {
        var m := LowerMonthNames[r.value - 1];
        assert Lower('n') == m[0] && Lower('o') == m[1] && Lower('t') == m[2];
      }
    }
  }

  /** Sample reading: "Jan 2020" is January 2020. */
  lemma ReadMonthYearExample()
    ensures ParseDate(Some("Jan 2020")) == Some(YearMonth(2020, 1))
  {
    var name, year := "Jan", "2020";
    assert AllDigits(year) && ParseNat(year) == 2020 by {
      ParseNatFour(year);
    }
    assert EqualsIgnoringCase(name, LowerMonthNames[0]) by {
      assert Lower('J') == 'j';
    }
    ReadMonthYear(name, 0, year);
    assert name + " " + year == "Jan 2020";
  }
}
