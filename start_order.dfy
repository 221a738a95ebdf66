/**
 * The order of the roles inside one employer (sections/experience.py, line 149):
 * `sorted(roles, key=lambda r: parse_date_safe(r.get("start_date")) or datetime.min)`.
 */
module StartOrder {
  import opened Wrappers
  import opened Records
  import opened Dates

  /** The sort key: the parsed start, or the month of `datetime.min` when it does not parse. */
  function StartKey(r: Role): (k: YearMonth)
    ensures Valid(k) && NotAfter(MinDate, k)
  {
    ParseDate(r.startDate).GetOr(MinDate)
  }

  /** The roles are in ascending order of `key`. */
  predicate SortedBy(key: Role -> YearMonth, rs: seq<Role>)
  {
    forall i, j :: 0 <= i < j < |rs| ==> NotAfter(key(rs[i]), key(rs[j]))
  }

  /** Put `x` after every role of `rs` whose key is not after its own. */
  function InsertBy(key: Role -> YearMonth, rs: seq<Role>, x: Role): seq<Role>
  {
    if rs == [] || !Before(key(x), key(rs[|rs| - 1])) then rs + [x]
    else InsertBy(key, rs[..|rs| - 1], x) + [rs[|rs| - 1]]
  }

  /**
   * `sorted(rs, key=key)`. Python's sort is stable: roles with equal keys keep their input order.
   * Inserting the roles one by one, each after the equal keys already placed, gives that list.
   */
  function SortBy(key: Role -> YearMonth, rs: seq<Role>): seq<Role>
  {
    if rs == [] then [] else InsertBy(key, SortBy(key, rs[..|rs| - 1]), rs[|rs| - 1])
  }

  /** Line 149: the roles of one employer sorted by start. */
  function SortByStart(rs: seq<Role>): seq<Role>
  {
    SortBy(StartKey, rs)
  }

  /** The roles of `rs` whose key is `k`, in their order in `rs`. */
  function WithKey(key: Role -> YearMonth, rs: seq<Role>, k: YearMonth): seq<Role>
  {
    if rs == [] then []
    else WithKey(key, rs[..|rs| - 1], k) + (if key(rs[|rs| - 1]) == k then [rs[|rs| - 1]] else [])
  }

  /** `sum(f(r) for r in rs)`. */
  function SumOf(f: Role -> nat, rs: seq<Role>): nat
  {
    if rs == [] then 0 else SumOf(f, rs[..|rs| - 1]) + f(rs[|rs| - 1])
  }

  lemma {:induction false} InsertPermutes(key: Role -> YearMonth, rs: seq<Role>, x: Role)
    ensures multiset(InsertBy(key, rs, x)) == multiset(rs) + multiset{x}
  {
    if rs != [] && Before(key(x), key(rs[|rs| - 1])) {
      var n := |rs| - 1;
      InsertPermutes(key, rs[..n], x);
      assert rs == rs[..n] + [rs[n]];
    }
  }

  lemma {:induction false} InsertKeepsSorted(key: Role -> YearMonth, rs: seq<Role>, x: Role)
    requires SortedBy(key, rs)
    ensures SortedBy(key, InsertBy(key, rs, x))
  {
    if rs != [] && Before(key(x), key(rs[|rs| - 1])) {
      var n := |rs| - 1;
      var last := rs[n];
      InsertKeepsSorted(key, rs[..n], x);
      InsertPermutes(key, rs[..n], x);
      var a := InsertBy(key, rs[..n], x);
      forall y | y in a
        ensures NotAfter(key(y), key(last))
      {
        assert y in multiset(a);
        if y != x {
          assert y in multiset(rs[..n]);
          var i :| 0 <= i < n && rs[..n][i] == y;
          assert rs[i] == y;
        }
      }
      var r := a + [last];
      forall i, j | 0 <= i < j < |r|
        ensures NotAfter(key(r[i]), key(r[j]))
      {
        if j == |a| {
          assert r[i] in a;
        } else {
          assert r[i] == a[i] && r[j] == a[j];
        }
      }
    }
  }

  /** Inserting `x` adds it after the roles that share its key: equal keys keep their order. */
  lemma {:induction false} InsertIsStable(key: Role -> YearMonth, rs: seq<Role>, x: Role, k: YearMonth)
    requires SortedBy(key, rs)
    ensures WithKey(key, InsertBy(key, rs, x), k) == WithKey(key, rs, k) + (if key(x) == k then [x] else [])
  {
    var r := InsertBy(key, rs, x);
    if rs == [] || !Before(key(x), key(rs[|rs| - 1])) {
      assert r[..|r| - 1] == rs;
    } else {
      var n := |rs| - 1;
      assert SortedBy(key, rs[..n]);
      InsertIsStable(key, rs[..n], x, k);
      var a := InsertBy(key, rs[..n], x);
      assert r[..|r| - 1] == a;
      assert rs[..n] == rs[..|rs| - 1];
    }
  }

  lemma {:induction false} InsertAddsToSum(key: Role -> YearMonth, f: Role -> nat, rs: seq<Role>, x: Role)
    ensures SumOf(f, InsertBy(key, rs, x)) == SumOf(f, rs) + f(x)
  {
    var r := InsertBy(key, rs, x);
    if rs == [] || !Before(key(x), key(rs[|rs| - 1])) {
      assert r[..|r| - 1] == rs;
    } else {
      var n := |rs| - 1;
      InsertAddsToSum(key, f, rs[..n], x);
      assert r[..|r| - 1] == InsertBy(key, rs[..n], x);
    }
  }

  lemma {:induction false} SortBySorted(key: Role -> YearMonth, rs: seq<Role>)
    ensures SortedBy(key, SortBy(key, rs))
  {
    if rs != [] {
      SortBySorted(key, rs[..|rs| - 1]);
      InsertKeepsSorted(key, SortBy(key, rs[..|rs| - 1]), rs[|rs| - 1]);
    }
  }

  lemma {:induction false} SortByPermutes(key: Role -> YearMonth, rs: seq<Role>)
    ensures multiset(SortBy(key, rs)) == multiset(rs)
  {
    if rs != [] {
      var n := |rs| - 1;
      SortByPermutes(key, rs[..n]);
      InsertPermutes(key, SortBy(key, rs[..n]), rs[n]);
      assert rs == rs[..n] + [rs[n]];
    }
  }

  lemma {:induction false} SortByStable(key: Role -> YearMonth, rs: seq<Role>, k: YearMonth)
    ensures WithKey(key, SortBy(key, rs), k) == WithKey(key, rs, k)
  {
    if rs != [] {
      var n := |rs| - 1;
      SortByStable(key, rs[..n], k);
      SortBySorted(key, rs[..n]);
      InsertIsStable(key, SortBy(key, rs[..n]), rs[n], k);
    }
  }

  /** A sum over the roles does not depend on their order. */
  lemma {:induction false} SortKeepsSum(key: Role -> YearMonth, f: Role -> nat, rs: seq<Role>)
    ensures SumOf(f, SortBy(key, rs)) == SumOf(f, rs)
  {
    if rs != [] {
      var n := |rs| - 1;
      SortKeepsSum(key, f, rs[..n]);
      InsertAddsToSum(key, f, SortBy(key, rs[..n]), rs[n]);
    }
  }

  /**
   * Line 149: the roles come out in ascending order of their start keys, as a permutation of the
   * input in which roles with equal keys keep their input order (a stable sort).
   */
  lemma SortByStartIsStableSort(rs: seq<Role>)
    ensures SortedBy(StartKey, SortByStart(rs))
    ensures multiset(SortByStart(rs)) == multiset(rs)
    ensures forall k :: WithKey(StartKey, SortByStart(rs), k) == WithKey(StartKey, rs, k)
  {
    SortBySorted(StartKey, rs);
    SortByPermutes(StartKey, rs);
    forall k
      ensures WithKey(StartKey, SortByStart(rs), k) == WithKey(StartKey, rs, k)
    {
      SortByStable(StartKey, rs, k);
    }
  }

  /**
   * A role whose start does not parse sorts as `datetime.min`: only roles keyed at that same
   * month (other unparsed starts, or January of year 1) can precede it.
   */
  lemma UnparsedStartsLead(rs: seq<Role>)
    ensures var s := SortByStart(rs);
            forall i, j :: 0 <= i < j < |s| && ParseDate(s[j].startDate).None? ==> StartKey(s[i]) == MinDate
  {
    SortBySorted(StartKey, rs);
    var s := SortByStart(rs);
    forall i, j | 0 <= i < j < |s| && ParseDate(s[j].startDate).None?
      ensures StartKey(s[i]) == MinDate
    {
      assert NotAfter(StartKey(s[i]), StartKey(s[j]));
      var p := ParseDate(s[i].startDate);
      assert p.Some? ==> Valid(p.value);
    }
  }

  /**
   * The order in terms of the parsed starts themselves: two starts that parse come in ascending
   * order, and a start that parses can come before one that does not only when it is the month of
   * `datetime.min`.
   */
  lemma ParsedStartsAscend(rs: seq<Role>)
    ensures var s := SortByStart(rs);
            forall i, j :: 0 <= i < j < |s| && ParseDate(s[i].startDate).Some? && ParseDate(s[j].startDate).Some? ==>
              NotAfter(ParseDate(s[i].startDate).value, ParseDate(s[j].startDate).value)
    ensures var s := SortByStart(rs);
            forall i, j :: 0 <= i < j < |s| && ParseDate(s[i].startDate).Some? && ParseDate(s[j].startDate).None? ==>
              ParseDate(s[i].startDate).value == MinDate
  {
    SortBySorted(StartKey, rs);
    var s := SortByStart(rs);
    forall i, j | 0 <= i < j < |s|
      ensures NotAfter(StartKey(s[i]), StartKey(s[j]))
    {
    }
  }

  /** One role is already sorted. */
  lemma SortOne(key: Role -> YearMonth, r: Role)
    ensures SortBy(key, [r]) == [r]
  {
    assert [r][..0] == [];
  }

  /** Three roles whose keys rank them second, first and third sort into that order. */
  lemma SortThree(key: Role -> YearMonth, a: Role, b: Role, c: Role)
    requires Before(key(b), key(a)) && !Before(key(c), key(a))
    ensures SortBy(key, [a, b, c]) == [b, a, c]
  {
    assert [a, b, c][..2] == [a, b] && [a, b][..1] == [a] && [a][..0] == [];
    assert SortBy(key, [a]) == [a];
    assert InsertBy(key, [a][..0], b) == [b];
    assert SortBy(key, [a, b]) == [b, a];
  }

  /** A start that does not parse sorts first; the parsed ones follow in date order. */
  lemma SortByStartExample()
    ensures var a, b, c := Role(None, Some("2019"), None, None, None),
                           Role(None, Some("not-a-date"), None, None, None),
                           Role(None, Some("Jan 2020"), None, None, None);
            SortByStart([a, b, c]) == [b, a, c]
  {
    var a, b, c := Role(None, Some("2019"), None, None, None),
                   Role(None, Some("not-a-date"), None, None, None),
                   Role(None, Some("Jan 2020"), None, None, None);
    ParseYearExample();
    NotADateExample();
    ReadMonthYearExample();
    SortThree(StartKey, a, b, c);
  }
}
