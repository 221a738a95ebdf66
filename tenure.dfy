/**
 * The per-employer summary of the experience section (sections/experience.py, lines 147-167),
 * and the whole normalisation: deduplicate, group by company, summarise each group.
 */
module Tenure {
  import opened Wrappers
  import opened Strings
  import opened Records
  import opened Durations
  import opened Dates
  import opened StartOrder
  import opened Dedup
  import opened Grouping

  /** The exceptions the summary can raise; either one ends the whole section. */
  datatype Error =
    | UnorderableDates   // TypeError: `<` or `>` between None and a datetime (or two Nones) in min/max
    | NoneHasNoStrftime  // AttributeError: `max([None]).strftime(...)`

  /** One entry of `grouped_output`; a None field is a key clean_dict dropped. */
  datatype Tenure = Tenure(
    company: Option<string>,
    startDate: Option<string>,
    endDate: Option<string>,
    duration: Option<string>,
    roles: seq<Role>)

  /** `bool(r.get(field))`: the key is present with a non-empty text. */
  predicate Truthy(t: Option<string>)
  {
    t.Some? && t.value != ""
  }

  /** `r.get("end_date", "").lower() == "present"`. */
  predicate IsPresent(t: Option<string>)
  {
    t.Some? && EqualsIgnoringCase(t.value, "present")
  }

  /** Line 155: some role is ongoing. */
  predicate AnyPresent(rs: seq<Role>)
  {
    exists x :: x in rs && IsPresent(x.endDate)
  }

  /** A role's term of line 150: its parsed duration when the key holds a text. */
  function Months(r: Role): nat
  {
    if Truthy(r.duration) then ParseDuration(r.duration) else 0
  }

  /** 1 for a role whose start date line 152 lists. */
  function ListedStart(r: Role): nat
  {
    if Truthy(r.startDate) then 1 else 0
  }

  /** 1 for a role whose end date line 153 lists. */
  function ListedEndCount(r: Role): nat
  {
    if ListedEnd(r.endDate) then 1 else 0
  }

  /** A role's parsed start date (`parse_date_safe(r.get("start_date"))`). */
  function StartOf(r: Role): Option<YearMonth>
  {
    ParseDate(r.startDate)
  }

  /** A role's parsed end date (`parse_date_safe(r.get("end_date"))`). */
  function EndOf(r: Role): Option<YearMonth>
  {
    ParseDate(r.endDate)
  }

  /** Line 152: `[parse_date_safe(r.get("start_date")) for r in rs if r.get("start_date")]`. */
  function StartDates(rs: seq<Role>): seq<Option<YearMonth>>
  {
    if rs == [] then []
    else
      var x := rs[|rs| - 1];
      StartDates(rs[..|rs| - 1]) + (if Truthy(x.startDate) then [StartOf(x)] else [])
  }

  /** Whether line 153 lists a role's end date: a text other than "present" in any case. */
  predicate ListedEnd(t: Option<string>)
  {
    Truthy(t) && !IsPresent(t)
  }

  /** Line 153: the parsed end dates of the roles that are not ongoing. */
  function EndDates(rs: seq<Role>): seq<Option<YearMonth>>
  {
    if rs == [] then []
    else
      var x := rs[|rs| - 1];
      EndDates(rs[..|rs| - 1]) + (if ListedEnd(x.endDate) then [EndOf(x)] else [])
  }

  /**
   * Python's `min(xs)` on a non-empty list of datetimes and Nones: keep the first item, replace it
   * by each later item that is `<` it. Comparing with None raises TypeError, so a list of two or
   * more fails as soon as it holds a None, while a one-item list is returned as it is.
   */
  function PyMin(xs: seq<Option<YearMonth>>): (r: Result<Option<YearMonth>, Error>)
    requires xs != []
    ensures r.Success? <==> |xs| == 1 || forall i :: 0 <= i < |xs| ==> xs[i].Some?
    ensures r.Failure? ==> r.error == UnorderableDates
    ensures r.Success? && |xs| == 1 ==> r.value == xs[0]
    ensures r.Success? && |xs| > 1 ==> r.value.Some? && r.value in xs
    ensures r.Success? && |xs| > 1 ==>
              forall i :: 0 <= i < |xs| ==> xs[i].Some? && NotAfter(r.value.value, xs[i].value)
  {
    if |xs| == 1 then Success(xs[0])
    else
      var x := xs[|xs| - 1];
      match PyMin(xs[..|xs| - 1])
      case Failure(e) => Failure(e)
      case Success(m) =>
        if m.None? || x.None? then Failure(UnorderableDates)
        else Success(if Before(x.value, m.value) then x else m)
  }

  /** Python's `max(xs)`, the mirror image of PyMin with `>`. */
  function PyMax(xs: seq<Option<YearMonth>>): (r: Result<Option<YearMonth>, Error>)
    requires xs != []
    ensures r.Success? <==> |xs| == 1 || forall i :: 0 <= i < |xs| ==> xs[i].Some?
    ensures r.Failure? ==> r.error == UnorderableDates
    ensures r.Success? && |xs| == 1 ==> r.value == xs[0]
    ensures r.Success? && |xs| > 1 ==> r.value.Some? && r.value in xs
    ensures r.Success? && |xs| > 1 ==>
              forall i :: 0 <= i < |xs| ==> xs[i].Some? && NotAfter(xs[i].value, r.value.value)
  {
    if |xs| == 1 then Success(xs[0])
    else
      var x := xs[|xs| - 1];
      match PyMax(xs[..|xs| - 1])
      case Failure(e) => Failure(e)
      case Success(m) =>
        if m.None? || x.None? then Failure(UnorderableDates)
        else Success(if Before(m.value, x.value) then x else m)
  }

  /** `d.strftime("%b %Y") if d else None`. */
  function FormatOpt(d: Option<YearMonth>): Option<string>
    requires d.Some? ==> Valid(d.value)
  {
    match d
    case None => None
    case Some(v) => Some(FormatDate(v))
  }

  /** Lines 154-157: the overall start, or the exception `min` raises. */
  function OverallStart(sorted: seq<Role>): (r: Result<Option<string>, Error>)
    ensures r.Failure? ==> r.error == UnorderableDates
  {
    var starts := StartDates(sorted);
    if starts == [] then Success(None)
    else match PyMin(starts)
      case Failure(e) => Failure(e)
      case Success(m) =>
        assert m.Some? ==> Valid(m.value) by { StartDatesParsed(sorted); }
        Success(FormatOpt(m))
  }

  /** Lines 155-157: "Present", the overall end, or the exception `max` or `strftime` raises. */
  function OverallEnd(sorted: seq<Role>): (r: Result<Option<string>, Error>)
    ensures AnyPresent(sorted) ==> r == Success(Some("Present"))
    ensures r.Failure? ==>
              r.error == (if |EndDates(sorted)| == 1 then NoneHasNoStrftime else UnorderableDates)
  {
    if AnyPresent(sorted) then Success(Some("Present"))
    else
      var ends := EndDates(sorted);
      if ends == [] then Success(None)
      else match PyMax(ends)
        case Failure(e) => Failure(e)
        case Success(None) => Failure(NoneHasNoStrftime)
        case Success(Some(d)) =>
          assert Valid(d) by { EndDatesParsed(sorted); }
          Success(Some(FormatDate(d)))
  }

  /** Lines 148-165 for one bucket: sort, sum, bound the dates, render. */
  function SummariseBucket(g: Group): (r: Result<Tenure, Error>)
    ensures r.Success? ==> r.value.company == g.company && r.value.roles == SortByStart(g.roles)
  {
    var sorted := SortByStart(g.roles);
    var total := SumOf(Months, sorted);
    match OverallStart(sorted)
    case Failure(e) => Failure(e)
    case Success(start) =>
      match OverallEnd(sorted)
      case Failure(e) => Failure(e)
      case Success(end) => Success(Tenure(g.company, start, end, FormatDuration(total), sorted))
  }

  /** Every listed start is a parse result, so its dates are valid ones. */
  lemma {:induction false} StartDatesParsed(rs: seq<Role>)
    ensures forall i :: 0 <= i < |StartDates(rs)| && StartDates(rs)[i].Some? ==> Valid(StartDates(rs)[i].value)
  {
    if rs != [] {
      StartDatesParsed(rs[..|rs| - 1]);
    }
  }

  lemma {:induction false} EndDatesParsed(rs: seq<Role>)
    ensures forall i :: 0 <= i < |EndDates(rs)| && EndDates(rs)[i].Some? ==> Valid(EndDates(rs)[i].value)
  {
    if rs != [] {
      EndDatesParsed(rs[..|rs| - 1]);
    }
  }

  /** `e` is the smallest `key` date among the roles, or None when no role has one. */
  ghost predicate IsLeast(rs: seq<Role>, key: Role -> Option<YearMonth>, e: Option<YearMonth>)
  {
    && (e.None? <==> forall x :: x in rs ==> key(x).None?)
    && (e.Some? ==> exists x :: x in rs && key(x) == e)
    && (e.Some? ==> forall x :: x in rs && key(x).Some? ==> NotAfter(e.value, key(x).value))
  }

  /** `e` is the largest `key` date among the roles, or None when no role has one. */
  ghost predicate IsGreatest(rs: seq<Role>, key: Role -> Option<YearMonth>, e: Option<YearMonth>)
  {
    && (e.None? <==> forall x :: x in rs ==> key(x).None?)
    && (e.Some? ==> exists x :: x in rs && key(x) == e)
    && (e.Some? ==> forall x :: x in rs && key(x).Some? ==> NotAfter(key(x).value, e.value))
  }

  /** Reference definition: the minimum of the parsed starts, skipping those that do not parse. */
  function EarliestStart(rs: seq<Role>): (e: Option<YearMonth>)
    ensures IsLeast(rs, StartOf, e)
    ensures e.Some? ==> Valid(e.value)
  {
    if rs == [] then None
    else
      var n := |rs| - 1;
      var prev := EarliestStart(rs[..n]);
      var p := StartOf(rs[n]);
      assert forall x :: x in rs <==> x in rs[..n] || x == rs[n] by {
        assert rs == rs[..n] + [rs[n]];
      }
      if p.None? then prev
      else if prev.None? || Before(p.value, prev.value) then p
      else prev
  }

  /** Reference definition: the maximum of the parsed ends, skipping those that do not parse. */
  function LatestEnd(rs: seq<Role>): (e: Option<YearMonth>)
    ensures IsGreatest(rs, EndOf, e)
    ensures e.Some? ==> Valid(e.value)
  {
    if rs == [] then None
    else
      var n := |rs| - 1;
      var prev := LatestEnd(rs[..n]);
      var p := EndOf(rs[n]);
      assert forall x :: x in rs <==> x in rs[..n] || x == rs[n] by {
        assert rs == rs[..n] + [rs[n]];
      }
      if p.None? then prev
      else if prev.None? || Before(prev.value, p.value) then p
      else prev
  }

  /** There is only one least date. */
  lemma LeastUnique(rs: seq<Role>, key: Role -> Option<YearMonth>, e1: Option<YearMonth>, e2: Option<YearMonth>)
    requires IsLeast(rs, key, e1) && IsLeast(rs, key, e2)
    ensures e1 == e2
  {
    if e1.Some? && e2.Some? {
      var x1 :| x1 in rs && key(x1) == e1;
      var x2 :| x2 in rs && key(x2) == e2;
      assert NotAfter(e1.value, e2.value) && NotAfter(e2.value, e1.value);
    }
  }

  /** There is only one greatest date. */
  lemma GreatestUnique(rs: seq<Role>, key: Role -> Option<YearMonth>, e1: Option<YearMonth>, e2: Option<YearMonth>)
    requires IsGreatest(rs, key, e1) && IsGreatest(rs, key, e2)
    ensures e1 == e2
  {
    if e1.Some? && e2.Some? {
      var x1 :| x1 in rs && key(x1) == e1;
      var x2 :| x2 in rs && key(x2) == e2;
      assert NotAfter(e1.value, e2.value) && NotAfter(e2.value, e1.value);
    }
  }

  /**
   * `min` over a list holding the key dates of some roles, among them every date that exists:
   * when it succeeds it returns the least key date.
   */
  lemma PyMinIsLeast(rs: seq<Role>, key: Role -> Option<YearMonth>, xs: seq<Option<YearMonth>>)
    requires forall d :: d in xs ==> exists x :: x in rs && key(x) == d
    requires forall x :: x in rs && key(x).Some? ==> key(x) in xs
    requires xs != [] && PyMin(xs).Success?
    ensures IsLeast(rs, key, PyMin(xs).value)
  {
    var m := PyMin(xs).value;
    assert m in xs by {
      if |xs| == 1 {
        assert xs[0] in xs;
      }
    }
    if |xs| == 1 {
      assert forall d :: d in xs ==> d == m;
    }
  }

  /** `max` likewise, when it returns a date. */
  lemma PyMaxIsGreatest(rs: seq<Role>, key: Role -> Option<YearMonth>, xs: seq<Option<YearMonth>>)
    requires forall d :: d in xs ==> exists x :: x in rs && key(x) == d
    requires forall x :: x in rs && key(x).Some? ==> key(x) in xs
    requires xs != [] && PyMax(xs).Success?
    ensures IsGreatest(rs, key, PyMax(xs).value)
  {
    var m := PyMax(xs).value;
    assert m in xs by {
      if |xs| == 1 {
        assert xs[0] in xs;
      }
    }
    if |xs| == 1 {
      assert forall d :: d in xs ==> d == m;
    }
  }

  /** A field that is absent or empty never parses as a date. */
  lemma ParsedHasText(t: Option<string>)
    ensures ParseDate(t).Some? ==> Truthy(t)
  {
    ParseDateEmpty();
  }

  /** Line 152 lists one parse result per role with a start text, and nothing else. */
  lemma {:induction false} StartDatesMembers(rs: seq<Role>)
    ensures |StartDates(rs)| == SumOf(ListedStart, rs)
    ensures forall d :: d in StartDates(rs) ==> exists x :: x in rs && Truthy(x.startDate) && StartOf(x) == d
    ensures forall x :: x in rs && Truthy(x.startDate) ==> StartOf(x) in StartDates(rs)
  {
    if rs != [] {
      var n := |rs| - 1;
      StartDatesMembers(rs[..n]);
      assert rs == rs[..n] + [rs[n]];
      forall d | d in StartDates(rs)
        ensures exists x :: x in rs && Truthy(x.startDate) && StartOf(x) == d
      {
        if d in StartDates(rs[..n]) {
          var x :| x in rs[..n] && Truthy(x.startDate) && StartOf(x) == d;
          assert x in rs;
        } else {
          assert rs[n] in rs;
        }
      }
    }
  }

  /** Line 153 lists one parse result per role with a non-"present" end text, and nothing else. */
  lemma {:induction false} EndDatesMembers(rs: seq<Role>)
    ensures |EndDates(rs)| == SumOf(ListedEndCount, rs)
    ensures forall d :: d in EndDates(rs) ==> exists x :: x in rs && ListedEnd(x.endDate) && EndOf(x) == d
    ensures forall x :: x in rs && ListedEnd(x.endDate) ==> EndOf(x) in EndDates(rs)
  {
    if rs != [] {
      var n := |rs| - 1;
      EndDatesMembers(rs[..n]);
      assert rs == rs[..n] + [rs[n]];
      forall d | d in EndDates(rs)
        ensures exists x :: x in rs && ListedEnd(x.endDate) && EndOf(x) == d
      {
        if d in EndDates(rs[..n]) {
          var x :| x in rs[..n] && ListedEnd(x.endDate) && EndOf(x) == d;
          assert x in rs;
        } else {
          assert rs[n] in rs;
        }
      }
    }
  }

  /** The listed starts are parsed starts of the roles, and every start that parses is listed. */
  lemma StartDatesCover(rs: seq<Role>)
    ensures forall d :: d in StartDates(rs) ==> exists x :: x in rs && StartOf(x) == d
    ensures forall x :: x in rs && StartOf(x).Some? ==> StartOf(x) in StartDates(rs)
  {
    StartDatesMembers(rs);
    forall x | x in rs
      ensures StartOf(x).Some? ==> Truthy(x.startDate)
    {
      ParsedHasText(x.startDate);
    }
  }

  /** Likewise for the listed ends, when no role is ongoing. */
  lemma EndDatesCover(rs: seq<Role>)
    requires !AnyPresent(rs)
    ensures forall d :: d in EndDates(rs) ==> exists x :: x in rs && EndOf(x) == d
    ensures forall x :: x in rs && EndOf(x).Some? ==> EndOf(x) in EndDates(rs)
  {
    EndDatesMembers(rs);
    forall x | x in rs
      ensures EndOf(x).Some? ==> ListedEnd(x.endDate)
    {
      ParsedHasText(x.endDate);
    }
  }

  /** Two or more start texts of which one does not parse: `min` raises. */
  predicate StartsClash(rs: seq<Role>)
  {
    SumOf(ListedStart, rs) >= 2 && exists x :: x in rs && Truthy(x.startDate) && StartOf(x).None?
  }

  /** An end text other than "present" that does not parse: `max` or `strftime` raises. */
  predicate EndsClash(rs: seq<Role>)
  {
    exists x :: x in rs && ListedEnd(x.endDate) && EndOf(x).None?
  }

  /** A None among the listed starts is exactly a start text that does not parse. */
  lemma StartDatesHoldNone(rs: seq<Role>)
    ensures None in StartDates(rs) <==> exists x :: x in rs && Truthy(x.startDate) && StartOf(x).None?
  {
    StartDatesMembers(rs);
  }

  /** A None among the listed ends is exactly an end text that does not parse. */
  lemma EndDatesHoldNone(rs: seq<Role>)
    ensures None in EndDates(rs) <==> EndsClash(rs)
  {
    EndDatesMembers(rs);
  }

  /** Lines 152-154: the overall start fails exactly on a clash, else renders the earliest start. */
  lemma OverallStartMeaning(rs: seq<Role>)
    ensures OverallStart(rs).Failure? <==> StartsClash(rs)
    ensures OverallStart(rs).Success? ==> OverallStart(rs).value == FormatOpt(EarliestStart(rs))
  {
    var xs := StartDates(rs);
    StartDatesMembers(rs);
    StartDatesCover(rs);
    if xs == [] {
      assert IsLeast(rs, StartOf, None);
      LeastUnique(rs, StartOf, None, EarliestStart(rs));
    } else {
      StartDatesHoldNone(rs);
      if PyMin(xs).Success? {
        PyMinIsLeast(rs, StartOf, xs);
        LeastUnique(rs, StartOf, PyMin(xs).value, EarliestStart(rs));
      }
    }
  }

  /** With no role ongoing, the end fails exactly when a listed end is None. */
  lemma OverallEndFailsOnNone(rs: seq<Role>)
    requires !AnyPresent(rs)
    ensures OverallEnd(rs).Failure? <==> None in EndDates(rs)
  {
    var xs := EndDates(rs);
    if xs != [] && PyMax(xs).Success? {
      if None in xs {
        var i :| 0 <= i < |xs| && xs[i] == None;
      }
      if |xs| == 1 {
        assert xs[0] in xs;
      }
    } else if xs != [] {
      var i :| 0 <= i < |xs| && xs[i].None?;
      assert xs[i] in xs;
    }
  }

  /** With no role ongoing, a successful end is the latest end that parses. */
  lemma OverallEndIsLatest(rs: seq<Role>)
    requires !AnyPresent(rs)
    ensures OverallEnd(rs).Success? ==> OverallEnd(rs).value == FormatOpt(LatestEnd(rs))
  {
    var xs := EndDates(rs);
    EndDatesCover(rs);
    if xs == [] {
      assert IsGreatest(rs, EndOf, None);
      GreatestUnique(rs, EndOf, None, LatestEnd(rs));
    } else if PyMax(xs).Success? {
      PyMaxIsGreatest(rs, EndOf, xs);
      GreatestUnique(rs, EndOf, PyMax(xs).value, LatestEnd(rs));
    }
  }

  /** Lines 153-157: "Present" when a role is ongoing, else fails exactly on a clash, else the latest end. */
  lemma OverallEndMeaning(rs: seq<Role>)
    ensures OverallEnd(rs).Failure? <==> !AnyPresent(rs) && EndsClash(rs)
    ensures OverallEnd(rs).Success? ==>
              OverallEnd(rs).value == if AnyPresent(rs) then Some("Present") else FormatOpt(LatestEnd(rs))
  {
    if !AnyPresent(rs) {
      OverallEndFailsOnNone(rs);
      EndDatesHoldNone(rs);
      OverallEndIsLatest(rs);
    }
  }

  /** A least date depends only on which roles there are, not on their order or repetition. */
  lemma LeastOfSameRoles(a: seq<Role>, b: seq<Role>, key: Role -> Option<YearMonth>, e: Option<YearMonth>)
    requires forall x :: x in a <==> x in b
    requires IsLeast(a, key, e)
    ensures IsLeast(b, key, e)
  {
    if e.Some? {
      var x :| x in a && key(x) == e;
      assert x in b;
    }
  }

  /** Likewise for a greatest date. */
  lemma GreatestOfSameRoles(a: seq<Role>, b: seq<Role>, key: Role -> Option<YearMonth>, e: Option<YearMonth>)
    requires forall x :: x in a <==> x in b
    requires IsGreatest(a, key, e)
    ensures IsGreatest(b, key, e)
  {
    if e.Some? {
      var x :| x in a && key(x) == e;
      assert x in b;
    }
  }

  /** Sorting keeps the roles of the bucket, so everything that depends only on them. */
  lemma SortKeepsBucketFacts(rs: seq<Role>)
    ensures EarliestStart(SortByStart(rs)) == EarliestStart(rs)
    ensures LatestEnd(SortByStart(rs)) == LatestEnd(rs)
    ensures AnyPresent(SortByStart(rs)) == AnyPresent(rs)
    ensures StartsClash(SortByStart(rs)) == StartsClash(rs)
    ensures EndsClash(SortByStart(rs)) == EndsClash(rs)
    ensures SumOf(Months, SortByStart(rs)) == SumOf(Months, rs)
  {
    var sorted := SortByStart(rs);
    SortByPermutes(StartKey, rs);
    assert forall x :: x in sorted <==> x in rs by {
      forall x
        ensures x in sorted <==> x in rs
      {
        assert x in sorted <==> x in multiset(sorted);
        assert x in rs <==> x in multiset(rs);
      }
    }
    LeastOfSameRoles(sorted, rs, StartOf, EarliestStart(sorted));
    LeastUnique(rs, StartOf, EarliestStart(sorted), EarliestStart(rs));
    GreatestOfSameRoles(sorted, rs, EndOf, LatestEnd(sorted));
    GreatestUnique(rs, EndOf, LatestEnd(sorted), LatestEnd(rs));
    SortKeepsSum(StartKey, ListedStart, rs);
    SortKeepsSum(StartKey, Months, rs);
  }

  /** A rendered date is never the word "Present" (its fourth character is a space). */
  lemma FormattedIsNotPresent(d: YearMonth)
    requires Valid(d)
    ensures FormatDate(d) != "Present"
  {
    assert |MonthNames[d.month - 1]| == 3;
    assert FormatDate(d)[3] == ' ';
  }

  /**
   * Lines 148-165 for one bucket: the summary fails exactly when `min` or `max` (or `strftime`
   * on the None `max` returns) raises, and otherwise spans from the earliest parsed start to
   * "Present" or the latest parsed end, totals the listed durations and lists the roles by start.
   */
  lemma SummariseBucketMeaning(g: Group)
    ensures SummariseBucket(g).Failure? <==>
              StartsClash(g.roles) || (!AnyPresent(g.roles) && EndsClash(g.roles))
    ensures SummariseBucket(g).Failure? && StartsClash(g.roles) ==>
              SummariseBucket(g).error == UnorderableDates
    ensures SummariseBucket(g).Failure? && !StartsClash(g.roles) ==>
              SummariseBucket(g).error ==
                (if |EndDates(g.roles)| == 1 then NoneHasNoStrftime else UnorderableDates)
    ensures SummariseBucket(g).Success? ==>
              var t := SummariseBucket(g).value;
              && t.company == g.company
              && t.startDate == FormatOpt(EarliestStart(g.roles))
              && t.endDate == (if AnyPresent(g.roles) then Some("Present") else FormatOpt(LatestEnd(g.roles)))
              && (t.endDate == Some("Present") <==> AnyPresent(g.roles))
              && t.duration == FormatDuration(SumOf(Months, g.roles))
              && t.roles == SortByStart(g.roles)
  {
    var sorted := SortByStart(g.roles);
    SortKeepsBucketFacts(g.roles);
    OverallStartMeaning(sorted);
    OverallEndMeaning(sorted);
    if !AnyPresent(g.roles) && LatestEnd(g.roles).Some? {
      FormattedIsNotPresent(LatestEnd(g.roles).value);
    }
    if StartsClash(g.roles) {
      var starts := StartDates(sorted);
      assert OverallStart(sorted) == Failure(PyMin(starts).error);
    } else if SummariseBucket(g).Failure? {
      EndDatesMembers(sorted);
      EndDatesMembers(g.roles);
      SortKeepsSum(StartKey, ListedEndCount, g.roles);
    }
  }

  /** A one-role bucket is already sorted. */
  lemma OneRoleSorted(r: Role)
    ensures SortByStart([r]) == [r]
  {
    SortOne(StartKey, r);
  }

  /** The total of a one-role bucket is that role's months. */
  lemma OneRoleMonths(r: Role)
    ensures SumOf(Months, [r]) == Months(r)
  {
    assert [r][..0] == [];
  }

  /** A role whose start is a rendered summary start gives that start back, alone in a bucket. */
  lemma StartAgain(r: Role, d: Option<YearMonth>)
    requires d.Some? ==> Valid(d.value)
    requires r.startDate == FormatOpt(d)
    ensures OverallStart([r]) == Success(r.startDate)
  {
    assert [r][..0] == [];
    if d.Some? {
      DateRoundTrip(d.value);
      assert StartDates([r]) == [Some(d.value)];
      assert PyMin([Some(d.value)]) == Success(Some(d.value));
    } else {
      assert StartDates([r]) == [];
    }
  }

  /** A role whose end is a rendered summary end gives that end back, alone in a bucket. */
  lemma EndAgain(r: Role, present: bool, d: Option<YearMonth>)
    requires d.Some? ==> Valid(d.value)
    requires r.endDate == if present then Some("Present") else FormatOpt(d)
    ensures OverallEnd([r]) == Success(r.endDate)
  {
    assert [r][..0] == [];
    assert r in [r];
    if present {
      assert IsPresent(r.endDate) by {
        assert Lower('P') == 'p';
      }
    } else if d.Some? {
      DateRoundTrip(d.value);
      assert !AnyPresent([r]);
      assert EndDates([r]) == [Some(d.value)];
      assert PyMax([Some(d.value)]) == Success(Some(d.value));
    } else {
      assert !AnyPresent([r]);
      assert EndDates([r]) == [];
    }
  }

  /** A role whose duration is a rendered total renders to the same text again. */
  lemma DurationAgain(r: Role, total: nat)
    requires r.duration == FormatDuration(total)
    ensures FormatDuration(Months(r)) == r.duration
  {
    if total > 0 {
      DurationRoundTrip(total);
    }
  }

  /**
   * Summarising is idempotent on company, start, end and duration: a role carrying a summary's
   * start, end and duration, alone in a bucket of the same company, summarises to the same four.
   */
  lemma SummaryOfSummary(g: Group)
    requires SummariseBucket(g).Success?
    ensures var t := SummariseBucket(g).value;
            var again := SummariseBucket(Group(t.company, [Role(None, t.startDate, t.endDate, t.duration, None)]));
            && again.Success?
            && again.value.company == t.company
            && again.value.startDate == t.startDate
            && again.value.endDate == t.endDate
            && again.value.duration == t.duration
  {
    var t := SummariseBucket(g).value;
    var r := Role(None, t.startDate, t.endDate, t.duration, None);
    SummariseBucketMeaning(g);
    OneRoleSorted(r);
    OneRoleMonths(r);
    StartAgain(r, EarliestStart(g.roles));
    EndAgain(r, AnyPresent(g.roles), LatestEnd(g.roles));
    DurationAgain(r, SumOf(Months, g.roles));
  }

  /**
   * Reference definition: `f` applied to each item in order, stopping at the first failure (an
   * exception raised inside a loop ends it).
   */
  function MapUntilFailure<A, B, E>(f: A -> Result<B, E>, xs: seq<A>): Result<seq<B>, E>
  {
    if xs == [] then Success([])
    else
      match MapUntilFailure(f, xs[..|xs| - 1])
      case Failure(e) => Failure(e)
      case Success(ys) =>
        match f(xs[|xs| - 1])
        case Failure(e) => Failure(e)
        case Success(y) => Success(ys + [y])
  }

  /**
   * The mapping succeeds exactly when `f` succeeds on every item, and then holds the results one
   * for one; otherwise it fails with the error of the first item on which `f` fails.
   */
  lemma {:induction false} MapUntilFailureMeaning<A, B, E>(f: A -> Result<B, E>, xs: seq<A>)
    ensures MapUntilFailure(f, xs).Success? <==> forall i :: 0 <= i < |xs| ==> f(xs[i]).Success?
    ensures MapUntilFailure(f, xs).Success? ==>
              |MapUntilFailure(f, xs).value| == |xs| &&
              forall i :: 0 <= i < |xs| ==> MapUntilFailure(f, xs).value[i] == f(xs[i]).value
    ensures MapUntilFailure(f, xs).Failure? ==>
              exists i :: 0 <= i < |xs| && f(xs[i]) == Failure(MapUntilFailure(f, xs).error) &&
                          forall j :: 0 <= j < i ==> f(xs[j]).Success?
  {
    if xs != [] {
      var n := |xs| - 1;
      var p := xs[..n];
      MapUntilFailureMeaning(f, p);
      assert forall i :: 0 <= i < n ==> xs[i] == p[i];
      if MapUntilFailure(f, p).Failure? {
        var i :| 0 <= i < n && f(p[i]) == Failure(MapUntilFailure(f, p).error) &&
                 forall j :: 0 <= j < i ==> f(p[j]).Success?;
        assert f(xs[i]) == Failure(MapUntilFailure(f, xs).error);
      } else if f(xs[n]).Failure? {
        assert forall j :: 0 <= j < n ==> f(xs[j]).Success?;
      }
    }
  }

  /** Lines 147-165: summarise the buckets in order; the first bucket that raises ends the loop. */
  method SummariseGroups(groups: seq<Group>) returns (r: Result<seq<Tenure>, Error>)
    ensures r == MapUntilFailure(SummariseBucket, groups)
  {
    var output: seq<Tenure> := [];  // grouped_output
    for i := 0 to |groups|
      invariant MapUntilFailure(SummariseBucket, groups[..i]) == Success(output)
    {
      assert groups[..i + 1][..i] == groups[..i];
      var summary := SummariseBucket(groups[i]);
      if summary.Failure? {
        r := Failure(summary.error);
        assert MapUntilFailure(SummariseBucket, groups[..i + 1]) == r;
        MapUntilFailurePrefix(SummariseBucket, groups, i + 1);
        return;
      }
      output := output + [summary.value];
    }
    assert groups[..|groups|] == groups;
    return Success(output);
  }

  /** Once a prefix fails, the whole mapping fails with the same error. */
  lemma {:induction false} MapUntilFailurePrefix<A, B, E>(f: A -> Result<B, E>, xs: seq<A>, k: nat)
    requires k <= |xs| && MapUntilFailure(f, xs[..k]).Failure?
    ensures MapUntilFailure(f, xs) == MapUntilFailure(f, xs[..k])
    decreases |xs|
  {
    if k < |xs| {
      var n := |xs| - 1;
      assert xs[..n][..k] == xs[..k];
      MapUntilFailurePrefix(f, xs[..n], k);
    } else {
      assert xs[..k] == xs;
    }
  }

  /** The number of roles listed across the summaries. */
  function RoleCount(ts: seq<Tenure>): nat
  {
    if ts == [] then 0 else RoleCount(ts[..|ts| - 1]) + |ts[|ts| - 1].roles|
  }

  /** Summaries listing the sorted buckets of some companies list as many roles as the buckets hold. */
  lemma {:induction false} RoleCountOfBuckets(s: seq<RawRole>, cs: seq<Option<string>>, ts: seq<Tenure>)
    requires |ts| == |cs|
    requires forall i :: 0 <= i < |cs| ==> ts[i].roles == SortByStart(Bucket(s, cs[i]))
    ensures RoleCount(ts) == TotalSize(s, cs)
  {
    if cs != [] {
      var m := |cs| - 1;
      RoleCountOfBuckets(s, cs[..m], ts[..m]);
      SortByPermutes(StartKey, Bucket(s, cs[m]));
      assert |multiset(ts[m].roles)| == |multiset(Bucket(s, cs[m]))|;
    }
  }

  /**
   * The whole normalisation of lines 126-167: keep the first role of each (title, start date),
   * bucket by company, summarise each bucket. On success there is one summary per company, in
   * first-seen order, no company twice, and every kept role is listed exactly once.
   */
  method Normalise(experiences: seq<RawRole>) returns (r: Result<seq<Tenure>, Error>)
    ensures r == MapUntilFailure(SummariseBucket, Groups(FirstOccurrences(experiences)))
    ensures r.Success? ==>
              && |r.value| == |Companies(FirstOccurrences(experiences))|
              && (forall i :: 0 <= i < |r.value| ==> r.value[i].company == Companies(FirstOccurrences(experiences))[i])
              && Distinct(seq(|r.value|, i requires 0 <= i < |r.value| => r.value[i].company))
              && RoleCount(r.value) == |FirstOccurrences(experiences)|
  {
    var unique := Deduplicate(experiences);
    var groups := GroupByCompany(unique);
    r := SummariseGroups(groups);
    MapUntilFailureMeaning(SummariseBucket, groups);
    if r.Success? {
      var cs := Companies(unique);
      CompaniesAreDistinctCompanies(unique);
      BucketsPartitionRoles(unique);
      forall i | 0 <= i < |r.value|
        ensures r.value[i].company == cs[i] && r.value[i].roles == SortByStart(Bucket(unique, cs[i]))
      {
        assert groups[i] == Group(cs[i], Bucket(unique, cs[i]));
      }
      RoleCountOfBuckets(unique, cs, r.value);
    }
  }
}
