/**
 * The deduplication pass of the experience section (sections/experience.py, the `unique`
 * dictionary): one record per (title, start date), the first one seen, in first-seen order.
 */
module Dedup {
  import opened Wrappers
  import opened Records

  /** `(exp.get("title"), exp.get("start_date"))`: a missing field is the shared None key. */
  datatype RoleKey = RoleKey(title: Option<string>, startDate: Option<string>)

  function KeyOf(r: RawRole): RoleKey
  {
    RoleKey(r.title, r.startDate)
  }

  function KeysOf(rs: seq<RawRole>): (ks: seq<RoleKey>)
    ensures |ks| == |rs| && forall i :: 0 <= i < |rs| ==> ks[i] == KeyOf(rs[i])
  {
    seq(|rs|, i requires 0 <= i < |rs| => KeyOf(rs[i]))
  }

  /** The values of `unique` once the records of `s` have been offered to it in order. */
  function FirstOccurrences(s: seq<RawRole>): seq<RawRole>
  {
    if s == [] then []
    else
      var prev := FirstOccurrences(s[..|s| - 1]);
      if KeyOf(s[|s| - 1]) in KeysOf(prev) then prev else prev + [s[|s| - 1]]
  }

  /** Lines 126-130: fill the insertion-ordered dictionary, then take its values. */
  method Deduplicate(experiences: seq<RawRole>) returns (kept: seq<RawRole>)
    ensures kept == FirstOccurrences(experiences)
  {
    var order: seq<RoleKey> := [];  // the insertion order of `unique`
    var unique: map<RoleKey, RawRole> := map[];
    for i := 0 to |experiences|
      invariant order == KeysOf(FirstOccurrences(experiences[..i]))
      invariant unique.Keys == set k | k in order
      invariant forall j :: 0 <= j < |order| ==> unique[order[j]] == FirstOccurrences(experiences[..i])[j]
    {
      assert experiences[..i + 1][..i] == experiences[..i];
      var exp := experiences[i];
      var key := KeyOf(exp);
      if key !in unique {
        order := order + [key];
        unique := unique[key := exp];
      }
    }
    assert experiences[..|experiences|] == experiences;
    kept := seq(|order|, j requires 0 <= j < |order| => unique[order[j]]);
  }

  /** Position i holds the first record of `s` with its key. */
  ghost predicate IsFirst(s: seq<RawRole>, i: int)
  {
    0 <= i < |s| && forall i' :: 0 <= i' < i ==> KeyOf(s[i']) != KeyOf(s[i])
  }

  /** The positions of `s` that hold the first record with their key, in increasing order. */
  ghost function FirstPositions(s: seq<RawRole>): (ps: seq<int>)
    ensures forall j :: 0 <= j < |ps| ==> IsFirst(s, ps[j])
    ensures forall j, j' :: 0 <= j < j' < |ps| ==> ps[j] < ps[j']
    ensures forall i :: IsFirst(s, i) ==> i in ps
  {
    if s == [] then []
    else
      var n := |s| - 1;
      var prev := FirstPositions(s[..n]);
      assert forall i :: 0 <= i < n ==> (IsFirst(s, i) <==> IsFirst(s[..n], i));
      if IsFirst(s, n) then prev + [n] else prev
  }

  /** The kept keys are exactly the keys of the input. */
  lemma {:induction false} FirstOccurrencesKeys(s: seq<RawRole>)
    ensures forall k :: k in KeysOf(FirstOccurrences(s)) <==> k in KeysOf(s)
  {
    if s != [] {
      var n := |s| - 1;
      FirstOccurrencesKeys(s[..n]);
      assert s == s[..n] + [s[n]];
      assert forall k :: k in KeysOf(s) <==> k in KeysOf(s[..n]) || k == KeyOf(s[n]);
      var prev := FirstOccurrences(s[..n]);
      if KeyOf(s[n]) !in KeysOf(prev) {
        assert KeysOf(prev + [s[n]]) == KeysOf(prev) + [KeyOf(s[n])];
      }
    }
  }

  /** No two records of `rs` share a key. */
  predicate KeysDistinct(rs: seq<RawRole>)
  {
    forall j, j' :: 0 <= j < j' < |rs| ==> KeyOf(rs[j]) != KeyOf(rs[j'])
  }

  /** No two kept records share a key. */
  lemma {:induction false} FirstOccurrencesDistinct(s: seq<RawRole>)
    ensures KeysDistinct(FirstOccurrences(s))
  {
    if s != [] {
      var n := |s| - 1;
      FirstOccurrencesDistinct(s[..n]);
      var prev := FirstOccurrences(s[..n]);
      if KeyOf(s[n]) !in KeysOf(prev) {
        var kept := prev + [s[n]];
        assert FirstOccurrences(s) == kept;
        forall j, j' | 0 <= j < j' < |kept|
          ensures KeyOf(kept[j]) != KeyOf(kept[j'])
        {
          assert kept[j] == prev[j];
          if j' == |prev| {
            assert KeysOf(prev)[j] == KeyOf(prev[j]);
            assert kept[j'] == s[n];
            assert KeyOf(kept[j]) != KeyOf(kept[j']);
          } else {
            assert kept[j'] == prev[j'];
            assert KeyOf(prev[j]) != KeyOf(prev[j']);
          }
        }
      }
    }
  }

  /**
   * The kept records are the input's records at the first position of each key, in the order of
   * those positions: first-seen order, the first record of each key, unchanged.
   */
  lemma {:induction false} FirstOccurrencesArePositions(s: seq<RawRole>)
    ensures var kept, ps := FirstOccurrences(s), FirstPositions(s);
            |kept| == |ps| && forall j :: 0 <= j < |ps| ==> kept[j] == s[ps[j]]
  {
    if s != [] {
      var n := |s| - 1;
      FirstOccurrencesArePositions(s[..n]);
      FirstOccurrencesKeys(s[..n]);
      var prev := FirstOccurrences(s[..n]);
      assert IsFirst(s, n) <==> KeyOf(s[n]) !in KeysOf(s[..n]) by {
        if !IsFirst(s, n) {
          var i' :| 0 <= i' < n && KeyOf(s[i']) == KeyOf(s[n]);
          assert KeysOf(s[..n])[i'] == KeyOf(s[n]);
        }
      }
    }
  }

  /** Two records with the same title and start date keep only the first; its text is unchanged. */
  lemma DuplicateRoleExample(a: RawRole, b: RawRole)
    requires a.title == b.title == Some("Engineer")
    requires a.startDate == b.startDate == Some("Jan 2020")
    ensures FirstOccurrences([a, b]) == [a]
  {
    assert [a, b][..1] == [a];
    assert [a][..0] == [];
    assert FirstOccurrences([a]) == [a];
    assert KeysOf([a])[0] == KeyOf(b);
  }
}
