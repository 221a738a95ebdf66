/**
 * Role records of the experience section (sections/experience.py): the dictionaries built per
 * scraped item, clean_dict, and the copy without the company key that the grouping stores.
 */
module Records {
  import opened Wrappers

  /**
   * One scraped role. A field is `None` when its key is absent from the dictionary: the records
   * pass through clean_dict when built, so a key is either missing or holds a text.
   */
  datatype RawRole = RawRole(
    title: Option<string>,
    company: Option<string>,
    startDate: Option<string>,
    endDate: Option<string>,
    duration: Option<string>,
    description: Option<string>)

  /** A role as stored in an employer's bucket: the same record without the company key. */
  datatype Role = Role(
    title: Option<string>,
    startDate: Option<string>,
    endDate: Option<string>,
    duration: Option<string>,
    description: Option<string>)

  /** The dictionary a RawRole stands for, with None for a missing key. */
  function RawRoleFields(r: RawRole): map<string, Option<string>>
  {
    map["title" := r.title, "company" := r.company, "start_date" := r.startDate,
        "end_date" := r.endDate, "duration" := r.duration, "description" := r.description]
  }

  /** The dictionary a Role stands for, with None for a missing key. */
  function RoleFields(r: Role): map<string, Option<string>>
  {
    map["title" := r.title, "start_date" := r.startDate, "end_date" := r.endDate,
        "duration" := r.duration, "description" := r.description]
  }

  /** `{k: v for k, v in role.items() if k != "company"}`: every key but "company", unchanged. */
  function WithoutCompany(r: RawRole): (role: Role)
    ensures RoleFields(role) == RawRoleFields(r) - {"company"}
  {
    Role(r.title, r.startDate, r.endDate, r.duration, r.description)
  }

  /** clean_dict: drop the entries whose value is None. */
  function CleanDict<K, V>(d: map<K, Option<V>>): (c: map<K, Option<V>>)
    ensures forall k :: k in c ==> k in d && c[k].Some?
    ensures forall k :: k in d && d[k].Some? ==> k in c && c[k] == d[k]
  {
    map k | k in d && d[k].Some? :: d[k]
  }

  /** Cleaning a cleaned dictionary changes nothing. */
  lemma CleanDictIdempotent<K, V>(d: map<K, Option<V>>)
    ensures CleanDict(CleanDict(d)) == CleanDict(d)
  {
  }

  /** Cleaning keeps exactly the keys that hold a value, empty texts included. */
  lemma CleanDictKeys<K, V>(d: map<K, Option<V>>)
    ensures CleanDict(d).Keys == set k | k in d && d[k].Some?
  {
  }
}
