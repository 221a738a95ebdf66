/**
 * The grouping pass of the experience section (sections/experience.py, `grouped_dict`): the
 * deduplicated roles bucketed by company, buckets in first-seen order.
 */
module Grouping {
  import opened Wrappers
  import opened Records

  /** One entry of `grouped_dict.items()`: a company (None when absent) and its roles. */
  datatype Group = Group(company: Option<string>, roles: seq<Role>)

  /** The keys of `grouped_dict` after the roles of `s`: each company once, first-seen order. */
  function Companies(s: seq<RawRole>): seq<Option<string>>
  {
    if s == [] then []
    else
      var prev := Companies(s[..|s| - 1]);
      if s[|s| - 1].company in prev then prev else prev + [s[|s| - 1].company]
  }

  /** The bucket of company `c`: the roles of `s` at that company, without the key, in order. */
  function Bucket(s: seq<RawRole>, c: Option<string>): seq<Role>
  {
    if s == [] then []
    else Bucket(s[..|s| - 1], c) + (if s[|s| - 1].company == c then [WithoutCompany(s[|s| - 1])] else [])
  }

  /** `grouped_dict.items()` after the roles of `s`. */
  function Groups(s: seq<RawRole>): seq<Group>
  {
    var cs := Companies(s);
    seq(|cs|, i requires 0 <= i < |cs| => Group(cs[i], Bucket(s, cs[i])))
  }

  /** Lines 141-145: append each role's copy to the default-list bucket of its company. */
  method GroupByCompany(unique: seq<RawRole>) returns (groups: seq<Group>)
    ensures groups == Groups(unique)
  {
    var order: seq<Option<string>> := [];  // the insertion order of `grouped_dict`
    var grouped: map<Option<string>, seq<Role>> := map[];
    for i := 0 to |unique|
      invariant order == Companies(unique[..i])
      invariant grouped.Keys == set c | c in order
      invariant forall c :: c in grouped ==> grouped[c] == Bucket(unique[..i], c)
    {
      assert unique[..i + 1][..i] == unique[..i];
      var role := unique[i];
      var company := role.company;
      var roleCopy := WithoutCompany(role);
      if company !in grouped {
        // the defaultdict creates an empty list on first access
        UnseenCompanyBucket(unique[..i], company);
        order := order + [company];
        grouped := grouped[company := []];
      }
      grouped := grouped[company := grouped[company] + [roleCopy]];
      assert forall c ::
        Bucket(unique[..i + 1], c) == Bucket(unique[..i], c) + (if company == c then [roleCopy] else []);
    }
    assert unique[..|unique|] == unique;
    groups := seq(|order|, j requires 0 <= j < |order| => Group(order[j], grouped[order[j]]));
  }

  predicate Distinct<T(==)>(xs: seq<T>)
  {
    forall i, j :: 0 <= i < j < |xs| ==> xs[i] != xs[j]
  }

  /** Some role of `s` is at company `c`. */
  predicate Employs(s: seq<RawRole>, c: Option<string>)
  {
    exists i :: 0 <= i < |s| && s[i].company == c
  }

  /** Each company is listed once, and exactly the companies of the input are listed. */
  lemma {:induction false} CompaniesAreDistinctCompanies(s: seq<RawRole>)
    ensures Distinct(Companies(s))
    ensures forall c :: c in Companies(s) <==> Employs(s, c)
  {
    if s != [] {
      var n := |s| - 1;
      CompaniesAreDistinctCompanies(s[..n]);
      forall c
        ensures Employs(s, c) <==> Employs(s[..n], c) || c == s[n].company
      {
        if Employs(s, c) && c != s[n].company {
          var i :| 0 <= i < |s| && s[i].company == c;
          assert s[..n][i] == s[i];
        }
        if Employs(s[..n], c) {
          var i :| 0 <= i < n && s[..n][i].company == c;
          assert s[i] == s[..n][i];
        }
      }
    }
  }

  /** A company that was never seen has an empty bucket. */
  lemma {:induction false} UnseenCompanyBucket(s: seq<RawRole>, c: Option<string>)
    requires c !in Companies(s)
    ensures Bucket(s, c) == []
  {
    if s != [] {
      var n := |s| - 1;
      assert Companies(s[..n]) <= Companies(s);
      UnseenCompanyBucket(s[..n], c);
    }
  }

  /** Sum of the bucket sizes of the listed companies. */
  function TotalSize(s: seq<RawRole>, cs: seq<Option<string>>): nat
  {
    if cs == [] then 0 else TotalSize(s, cs[..|cs| - 1]) + |Bucket(s, cs[|cs| - 1])|
  }

  /** Adding one role adds one to the total of distinct companies iff its company is listed. */
  lemma {:induction false} TotalSizeStep(p: seq<RawRole>, r: RawRole, cs: seq<Option<string>>)
    requires Distinct(cs)
    ensures TotalSize(p + [r], cs) == TotalSize(p, cs) + (if r.company in cs then 1 else 0)
  {
    assert (p + [r])[..|p|] == p;
    if cs != [] {
      var m := |cs| - 1;
      TotalSizeStep(p, r, cs[..m]);
      assert cs == cs[..m] + [cs[m]];
    }
  }

  /** Every role lands in exactly one bucket: the bucket sizes add up to the number of roles. */
  lemma {:induction false} BucketsPartitionRoles(s: seq<RawRole>)
    ensures TotalSize(s, Companies(s)) == |s|
  {
    if s != [] {
      var n := |s| - 1;
      var p, r := s[..n], s[n];
      assert s == p + [r];
      BucketsPartitionRoles(p);
      CompaniesAreDistinctCompanies(p);
      TotalSizeStep(p, r, Companies(p));
      if r.company !in Companies(p) {
        UnseenCompanyBucket(p, r.company);
        var cs := Companies(p) + [r.company];
        assert cs[..|cs| - 1] == Companies(p);
      }
    }
  }
}
