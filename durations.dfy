/**
 * Duration text of the experience section (sections/experience.py, parse_duration_string and
 * format_duration): "2 yrs 3 mos" and the like, read as and rendered from a number of months.
 */
module Durations {
  import opened Wrappers
  import opened Strings

  /**
   * Whether the regular expression `(\d+)\s+<unit>` matches at the very start of `t`.
   * Both repetitions are greedy and giving characters back never helps (a shorter digit run is
   * followed by a digit, a shorter space run by a space, and the unit starts with a letter), so
   * the only candidate is the longest digit run followed by the longest space run.
   */
  predicate CountAt(t: string, unit: string) {
    var d := DigitRun(t);
    d > 0 && SpaceRun(t[d..]) > 0 && unit <= t[d + SpaceRun(t[d..])..]
  }

  /** The first index at or after `from` whose entry is true. */
  function FirstTrue(bs: seq<bool>, from: nat): (r: Option<nat>)
    requires from <= |bs|
    ensures r.Some? ==> from <= r.value < |bs| && bs[r.value]
    ensures r.Some? ==> forall k :: from <= k < r.value ==> !bs[k]
    ensures r.None? ==> forall k :: from <= k < |bs| ==> !bs[k]
    decreases |bs| - from
  {
    if from == |bs| then None
    else if bs[from] then Some(from)
    else FirstTrue(bs, from + 1)
  }

  /** For each position of `s`, whether `(\d+)\s+<unit>` matches there. */
  function MatchTable(s: string, unit: string): (bs: seq<bool>)
    ensures |bs| == |s| && forall k :: 0 <= k < |s| ==> bs[k] == CountAt(s[k..], unit)
  {
    seq(|s|, k requires 0 <= k < |s| => CountAt(s[k..], unit))
  }

  /** Leftmost position where `(\d+)\s+<unit>` matches: `re.search`. */
  function FirstMatch(s: string, unit: string): (r: Option<nat>)
    ensures r.Some? ==> r.value < |s| && CountAt(s[r.value..], unit)
    ensures r.Some? ==> forall k :: 0 <= k < r.value ==> !CountAt(s[k..], unit)
    ensures r.None? ==> forall k :: 0 <= k < |s| ==> !CountAt(s[k..], unit)
  {
    FirstTrue(MatchTable(s, unit), 0)
  }

  /** The digits captured by `(\d+)` when the match starts at the beginning of `t`. */
  function Captured(t: string): string
  {
    t[..DigitRun(t)]
  }

  /** `int(m.group(1))` of the leftmost match of `(\d+)\s+<unit>` in `s`, or 0 without one. */
  function CountOf(s: string, unit: string): nat
  {
    match FirstMatch(s, unit)
    case None => 0
    case Some(i) => ParseNat(Captured(s[i..]))
  }

  /** parse_duration_string: absent or empty text is 0 months, otherwise 12 * years + months. */
  function ParseDuration(text: Option<string>): (months: nat)
    ensures text.None? || text == Some("") ==> months == 0
  {
    if text.None? || text.value == "" then 0
    else 12 * CountOf(text.value, "yr") + CountOf(text.value, "mo")
  }

  /** The count read for a unit is the one at the leftmost place the pattern matches. */
  lemma CountOfLeftmost(s: string, unit: string, p: nat)
    requires p < |s| && CountAt(s[p..], unit)
    requires forall k :: 0 <= k < p ==> !CountAt(s[k..], unit)
    ensures CountOf(s, unit) == ParseNat(Captured(s[p..]))
  {
    var r := FirstMatch(s, unit);
    assert r.Some? && r.value == p;
  }

  /** Without a match anywhere, the unit contributes nothing. */
  lemma CountOfNoMatch(s: string, unit: string)
    requires forall k :: 0 <= k < |s| ==> !CountAt(s[k..], unit)
    ensures CountOf(s, unit) == 0
  {
  }

  /** One part of the rendering: "<n> <word>", with an "s" only when n > 1. */
  function Unit(count: nat, word: string): string
  {
    NatToString(count) + " " + word + (if count > 1 then "s" else "")
  }

  /** `" ".join(parts)`. */
  function Join(parts: seq<string>): string
  {
    if parts == [] then ""
    else if |parts| == 1 then parts[0]
    else parts[0] + " " + Join(parts[1..])
  }

  /** format_duration: the non-zero year and month parts joined by a space, or None for zero. */
  function FormatDuration(total: nat): (text: Option<string>)
    ensures text.None? <==> total == 0
  {
    var years, months := total / 12, total % 12;
    var parts := (if years > 0 then [Unit(years, "yr")] else [])
                 + (if months > 0 then [Unit(months, "mo")] else []);
    if parts == [] then None else Some(Join(parts))
  }

  /** Rendering boundaries: 1 is singular, 2 is plural, zero parts are left out, 0 is None. */
  lemma FormatDurationExamples()
    ensures FormatDuration(0) == None
    ensures FormatDuration(1) == Some("1 mo")
    ensures FormatDuration(2) == Some("2 mos")
    ensures FormatDuration(12) == Some("1 yr")
    ensures FormatDuration(20) == Some("1 yr 8 mos")
    ensures FormatDuration(33) == Some("2 yrs 9 mos")
  {
    assert Unit(1, "mo") == "1 mo";
    assert Unit(2, "mo") == "2 mos";
    assert Unit(1, "yr") == "1 yr";
    assert Unit(8, "mo") == "8 mos";
    assert Unit(2, "yr") == "2 yrs";
    assert Unit(9, "mo") == "9 mos";
    assert [Unit(1, "yr")] + [Unit(8, "mo")] == ["1 yr", "8 mos"];
    assert [Unit(2, "yr")] + [Unit(9, "mo")] == ["2 yrs", "9 mos"];
    assert ["1 yr", "8 mos"][1..] == ["8 mos"];
    assert ["2 yrs", "9 mos"][1..] == ["9 mos"];
    assert Join(["1 yr", "8 mos"]) == "1 yr 8 mos";
    assert Join(["2 yrs", "9 mos"]) == "2 yrs 9 mos";
  }

  /** Inside a digit run followed by one space: the pattern matches iff `u` follows the space. */
  lemma {:induction false} MatchInDigits(digits: string, tail: string, u: string, k: nat)
    requires AllDigits(digits) && k < |digits|
    requires |tail| >= 2 && tail[0] == ' ' && !IsSpace(tail[1])
    ensures CountAt((digits + tail)[k..], u) <==> u <= tail[1..]
    ensures Captured((digits + tail)[k..]) == digits[k..]
  {
    var t := (digits + tail)[k..];
    assert t == digits[k..] + tail;
    DigitRunOfDigits(digits[k..], tail);
    assert t[|digits| - k..] == tail;
    assert SpaceRun(tail) == 1 by {
      assert tail[1..][0] == tail[1];
    }
  }

  /** The pattern never matches where the text does not start with a digit. */
  lemma NoMatchAtNonDigit(t: string, u: string)
    requires t != [] && !IsDigit(t[0])
    ensures !CountAt(t, u)
  {
  }

  /**
   * Where `(\d+)\s+<u>` can match inside a rendered part "<n> <word>[s]" followed by `rest`:
   * only inside the digits, and only when `u` is a prefix of what follows the single space.
   */
  lemma MatchesInUnit(count: nat, word: string, rest: string, u: string, k: nat)
    requires |word| > 0 && 'a' <= word[0] <= 'z'
    requires forall i :: 0 <= i < |word| ==> !IsDigit(word[i])
    requires k < |Unit(count, word)|
    ensures k < |NatToString(count)| ==>
              (CountAt((Unit(count, word) + rest)[k..], u) <==> u <= word + (if count > 1 then "s" else "") + rest)
    ensures k < |NatToString(count)| ==> Captured((Unit(count, word) + rest)[k..]) == NatToString(count)[k..]
    ensures k >= |NatToString(count)| ==> !CountAt((Unit(count, word) + rest)[k..], u)
  {
    var digits := NatToString(count);
    NatToStringRoundTrip(count);
    var sfx := if count > 1 then "s" else "";
    var tail := " " + word + sfx + rest;
    var t := Unit(count, word) + rest;
    assert t == digits + tail;
    if k < |digits| {
      assert tail[1] == word[0];
      assert tail[1..] == word + sfx + rest;
      MatchInDigits(digits, tail, u, k);
    } else {
      var unit := Unit(count, word);
      assert t[k] == unit[k];
      assert unit[k] == ' ' || unit[k] in word || unit[k] == 's';
      assert t[k..][0] == t[k];
      NoMatchAtNonDigit(t[k..], u);
    }
  }

  /** No place inside a rendered part (plus what follows it) matches a different unit. */
  lemma NoOtherUnitInUnit(count: nat, word: string, rest: string, u: string, p: nat)
    requires |word| > 0 && 'a' <= word[0] <= 'z'
    requires forall i :: 0 <= i < |word| ==> !IsDigit(word[i])
    requires |u| == |word| && u != word
    requires p <= |Unit(count, word)|
    ensures forall k :: 0 <= k < p ==> !CountAt((Unit(count, word) + rest)[k..], u)
  {
    forall k | 0 <= k < p
      ensures !CountAt((Unit(count, word) + rest)[k..], u)
    {
      MatchesInUnit(count, word, rest, u, k);
      var w := word + (if count > 1 then "s" else "") + rest;
      assert w[..|word|] == word;
    }
  }

  /** A rendered part "<n> <word>[s]" at the start of the text is read back as `n`. */
  lemma UnitReadsBack(count: nat, word: string, rest: string)
    requires |word| > 0 && 'a' <= word[0] <= 'z'
    requires forall i :: 0 <= i < |word| ==> !IsDigit(word[i])
    ensures CountOf(Unit(count, word) + rest, word) == count
  {
    var t := Unit(count, word) + rest;
    MatchesInUnit(count, word, rest, word, 0);
    NatToStringRoundTrip(count);
    assert t[0..] == t;
    CountOfLeftmost(t, word, 0);
  }

  /** A prefix where the pattern never matches does not change the count read. */
  lemma CountOfAfterPrefix(a: string, b: string, u: string)
    requires forall k :: 0 <= k < |a| ==> !CountAt((a + b)[k..], u)
    ensures CountOf(a + b, u) == CountOf(b, u)
  {
    var s := a + b;
    forall j | 0 <= j <= |b|
      ensures s[|a| + j..] == b[j..]
    {
    }
    match FirstMatch(b, u)
    case None =>
      forall k | 0 <= k < |s|
        ensures !CountAt(s[k..], u)
      {
        if k >= |a| {
          assert s[k..] == b[k - |a|..];
        }
      }
      CountOfNoMatch(s, u);
    case Some(j) =>
      forall k | 0 <= k < |a| + j
        ensures !CountAt(s[k..], u)
      {
        if k >= |a| {
          assert s[k..] == b[k - |a|..];
        }
      }
      assert s[|a| + j..] == b[j..];
      CountOfLeftmost(s, u, |a| + j);
  }

  /** The month count of "<y> yr[s] <m> mo[s]" is the number right after the year part. */
  lemma ReadBackMonthsAfterYears(years: nat, months: nat)
    ensures CountOf(Unit(years, "yr") + " " + Unit(months, "mo"), "mo") == months
  {
    var yr, mo := Unit(years, "yr"), Unit(months, "mo");
    var a := yr + " ";
    assert a + mo == yr + (" " + mo);
    NoOtherUnitInUnit(years, "yr", " " + mo, "mo", |yr|);
    forall k | 0 <= k < |a|
      ensures !CountAt((a + mo)[k..], "mo")
    {
      if k == |yr| {
        assert (a + mo)[k..][0] == ' ';
        NoMatchAtNonDigit((a + mo)[k..], "mo");
      }
    }
    CountOfAfterPrefix(a, mo, "mo");
    UnitReadsBack(months, "mo", []);
    assert mo + [] == mo;
  }

  /** "<y> yr[s] <m> mo[s]" is read back as y years and m months. */
  lemma ReadBackYearsAndMonths(years: nat, months: nat)
    ensures CountOf(Unit(years, "yr") + " " + Unit(months, "mo"), "yr") == years
    ensures CountOf(Unit(years, "yr") + " " + Unit(months, "mo"), "mo") == months
  {
    var yr, mo := Unit(years, "yr"), Unit(months, "mo");
    assert yr + " " + mo == yr + (" " + mo);
    UnitReadsBack(years, "yr", " " + mo);
    ReadBackMonthsAfterYears(years, months);
  }

  /** "<y> yr[s]" alone is read back as y years and no months. */
  lemma ReadBackYears(years: nat)
    ensures CountOf(Unit(years, "yr"), "yr") == years && CountOf(Unit(years, "yr"), "mo") == 0
  {
    var yr := Unit(years, "yr");
    assert yr == yr + [];
    UnitReadsBack(years, "yr", []);
    NoOtherUnitInUnit(years, "yr", [], "mo", |yr|);
    CountOfNoMatch(yr, "mo");
  }

  /** "<m> mo[s]" alone is read back as no years and m months. */
  lemma ReadBackMonths(months: nat)
    ensures CountOf(Unit(months, "mo"), "yr") == 0 && CountOf(Unit(months, "mo"), "mo") == months
  {
    var mo := Unit(months, "mo");
    assert mo == mo + [];
    UnitReadsBack(months, "mo", []);
    NoOtherUnitInUnit(months, "mo", [], "yr", |mo|);
    CountOfNoMatch(mo, "yr");
  }

  /** Reading back what format_duration renders gives the same number of months. */
  lemma {:induction false} DurationRoundTrip(total: nat)
    requires total > 0
    ensures ParseDuration(FormatDuration(total)) == total
  {
    var years, months := total / 12, total % 12;
    var yr, mo := Unit(years, "yr"), Unit(months, "mo");
    var s := FormatDuration(total).value;
    if years > 0 && months > 0 {
      assert Join([yr, mo]) == yr + " " + Join([mo]);
      assert s == yr + " " + mo;
      ReadBackYearsAndMonths(years, months);
    } else if years > 0 {
      assert s == yr;
      ReadBackYears(years);
    } else {
      assert s == mo;
      ReadBackMonths(months);
    }
  }
}
