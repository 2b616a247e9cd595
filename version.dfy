/** Project versions (`apis/resources/version.py`): the status filter with
    forced ids, the ordering by due date and update time, and the
    duplicate-name check before a version is created. The Redmine reply is
    a parameter. */
module Version {
  import opened Wrappers
  import opened Strs
  import opened StrOrder

  /** A date field of a Redmine version: absent, null, or a date text. */
  datatype DateField = Missing | Null | Date(text: string)

  datatype Version = Version(id: int, name: string, status: Option<string>, dueDate: DateField, updatedOn: DateField)

  datatype VersionList = VersionList(versions: seq<Version>, totalCount: int)

  const VersionsNotFound := DevOps(404, "Error while getting versions.")
  const NameExists := DevOps(404, "Project_version name is exist")

  /** A date as `__compare_date_string` sees it: absent is "", null is "Z". */
  function DateText(d: DateField): string {
    match d
    case Missing => ""
    case Null => "Z"
    case Date(t) => t
  }

  /** `__compare_date_string`: the sort key (due date, update time). */
  function SortKey(v: Version): (string, string) {
    (DateText(v.dueDate), DateText(v.updatedOn))
  }

  /** Python's `<` on pairs of strings. */
  predicate KeyLess(a: (string, string), b: (string, string)) {
    Less(a.0, b.0) || (a.0 == b.0 && Less(a.1, b.1))
  }

  lemma KeyLessTransitive(a: (string, string), b: (string, string), c: (string, string))
    requires KeyLess(a, b) && KeyLess(b, c)
    ensures KeyLess(a, c)
  {
    if Less(a.0, b.0) && Less(b.0, c.0) {
      LessTransitive(a.0, b.0, c.0);
    } else if Less(a.1, b.1) && Less(b.1, c.1) {
      LessTransitive(a.1, b.1, c.1);
    }
  }

  lemma KeyLessAsymmetric(a: (string, string), b: (string, string))
    requires KeyLess(a, b)
    ensures !KeyLess(b, a)
  {
    if KeyLess(b, a) {
      KeyLessTransitive(a, b, a);
      LessIrreflexive(a.0);
      LessIrreflexive(a.1);
    }
  }

  lemma KeyLessTotal(a: (string, string), b: (string, string))
    ensures a == b || KeyLess(a, b) || KeyLess(b, a)
  {
    LessTotal(a.0, b.0);
    LessTotal(a.1, b.1);
  }

  /** `a <= b` chained with `b <= c` on keys. */
  lemma KeyNotLessTransitive(a: (string, string), b: (string, string), c: (string, string))
    requires !KeyLess(b, a) && !KeyLess(c, b)
    ensures !KeyLess(c, a)
  {
    KeyLessTotal(a, b);
    KeyLessTotal(b, c);
    if KeyLess(c, a) {
      if a == b {
      } else if b == c {
      } else {
        KeyLessTransitive(a, b, c);
        KeyLessAsymmetric(a, c);
      }
    }
  }

  /** Ordered by `__compare_date_string`, earliest first. */
  predicate SortedByDate(vs: seq<Version>) {
    forall i, j :: 0 <= i < j < |vs| ==> !KeyLess(SortKey(vs[j]), SortKey(vs[i]))
  }

  /** `v` placed before the first version whose key is not below its own. */
  function Insert(v: Version, vs: seq<Version>): (r: seq<Version>)
    ensures multiset(r) == multiset(vs) + multiset{v}
  {
    if vs == [] then [v]
    else if KeyLess(SortKey(vs[0]), SortKey(v)) then
      assert vs == [vs[0]] + vs[1..];
      [vs[0]] + Insert(v, vs[1..])
    else [v] + vs
  }

  lemma SortedCons(h: Version, t: seq<Version>)
    requires SortedByDate(t) && forall k :: 0 <= k < |t| ==> !KeyLess(SortKey(t[k]), SortKey(h))
    ensures SortedByDate([h] + t)
  {
    assert forall i :: 0 < i < |t| + 1 ==> ([h] + t)[i] == t[i - 1];
  }

  lemma {:induction false} InsertSorted(v: Version, vs: seq<Version>)
    requires SortedByDate(vs)
    ensures SortedByDate(Insert(v, vs))
    decreases |vs|
  {
    if vs != [] {
      if KeyLess(SortKey(vs[0]), SortKey(v)) {
        var rest := Insert(v, vs[1..]);
        assert SortedByDate(vs[1..]) by {
          assert forall i :: 0 <= i < |vs| - 1 ==> vs[1..][i] == vs[i + 1];
        }
        InsertSorted(v, vs[1..]);
        forall k | 0 <= k < |rest| ensures !KeyLess(SortKey(rest[k]), SortKey(vs[0])) {
          assert rest[k] in multiset(rest);
          if rest[k] == v {
            KeyLessAsymmetric(SortKey(vs[0]), SortKey(v));
          } else {
            assert rest[k] in multiset(vs[1..]);
            var j :| 0 <= j < |vs[1..]| && vs[1..][j] == rest[k];
            assert vs[j + 1] == rest[k];
          }
        }
        SortedCons(vs[0], rest);
      } else {
        forall j | 0 <= j < |vs| ensures !KeyLess(SortKey(vs[j]), SortKey(v)) {
          if j > 0 {
            KeyNotLessTransitive(SortKey(v), SortKey(vs[0]), SortKey(vs[j]));
          }
        }
        SortedCons(v, vs);
      }
    }
  }

  /** `list.sort(key=__compare_date_string)`: a stable insertion sort. */
  function SortByDate(vs: seq<Version>): (r: seq<Version>)
    ensures multiset(r) == multiset(vs)
    ensures SortedByDate(r)
  {
    if vs == [] then []
    else
      assert vs == [vs[0]] + vs[1..];
      InsertSorted(vs[0], SortByDate(vs[1..]));
      Insert(vs[0], SortByDate(vs[1..]))
  }

  /** A version without a due date sorts before every dated one. */
  lemma MissingDueDateFirst(a: Version, b: Version)
    requires a.dueDate.Missing? && !b.dueDate.Missing? && DateText(b.dueDate) != ""
    ensures KeyLess(SortKey(a), SortKey(b))
  {
  }

  /** A version whose due date is null sorts after every version dated with
      a text that starts with a digit. */
  lemma NullDueDateAfterDated(a: Version, b: Version)
    requires a.dueDate.Null? && b.dueDate.Date? && b.dueDate.text != "" && IsDigit(b.dueDate.text[0])
    ensures KeyLess(SortKey(b), SortKey(a))
  {
  }

  /** The filter of `get_version_list_by_project`: a version stays when its
      id is among the forced ids or its status among the wanted ones. */
  predicate Wanted(v: Version, forceIds: seq<string>, statuses: seq<string>) {
    IntToString(v.id) in forceIds || (v.status.Some? && v.status.value in statuses)
  }

  function Filtered(vs: seq<Version>, forceIds: seq<string>, statuses: seq<string>): (r: seq<Version>)
    ensures forall v :: v in r <==> v in vs && Wanted(v, forceIds, statuses)
    ensures |r| <= |vs|
  {
    if vs == [] then []
    else
      var init := vs[..|vs| - 1];
      assert vs == init + [vs[|vs| - 1]];
      Filtered(init, forceIds, statuses) + (if Wanted(vs[|vs| - 1], forceIds, statuses) then [vs[|vs| - 1]] else [])
  }

  /** What `get_version_list_by_project` returns: the version list, or a
      reply it has already built with `util.success` or `util.respond`. The
      views wrap either in `util.success`, so a built reply ends up as the
      data of a second success envelope. */
  datatype VersionsReply = Listed(list: VersionList) | BuiltSuccess(data: VersionList) | BuiltError(error: Error)

  /** `get_version_list_by_project` once the Redmine list is fetched:
      a dummy project has an already built empty reply, a project without a
      plan project an already built 404; a status filter
      (comma-separated, with comma-separated forced ids) recounts the list;
      the result is ordered by date. */
  function VersionListOf(isDummy: bool, planId: Option<int>, fetched: VersionList,
                         status: Option<string>, forceId: Option<string>): (r: VersionsReply)
    ensures r.BuiltSuccess? <==> isDummy
    ensures r.BuiltSuccess? ==> r.data == VersionList([], 0)
    ensures r.BuiltError? <==> !isDummy && planId.None?
    ensures r.BuiltError? ==> r.error == VersionsNotFound
  {
    if isDummy then BuiltSuccess(VersionList([], 0))
    else if planId.None? then BuiltError(VersionsNotFound)
    else
      var forceIds := if forceId.Some? then Split(forceId.value, ",") else [];
      var chosen := if status.Some? then
                      VersionList(Filtered(fetched.versions, forceIds, Split(status.value, ",")),
                                  |Filtered(fetched.versions, forceIds, Split(status.value, ","))|)
                    else fetched;
      Listed(VersionList(SortByDate(chosen.versions), chosen.totalCount))
  }

  /** The listed versions are date-ordered; with a status filter they are
      exactly the wanted ones and the count is theirs, without it they are
      the fetched ones and the count is Redmine's. */
  lemma VersionListMeaning(isDummy: bool, planId: Option<int>, fetched: VersionList,
                           status: Option<string>, forceId: Option<string>)
    requires !isDummy && planId.Some?
    ensures var r := VersionListOf(isDummy, planId, fetched, status, forceId);
      r.Listed? && SortedByDate(r.list.versions) &&
      (status.None? ==> multiset(r.list.versions) == multiset(fetched.versions) &&
                        r.list.totalCount == fetched.totalCount) &&
      (status.Some? ==>
         var forceIds := if forceId.Some? then Split(forceId.value, ",") else [];
         r.list.totalCount == |r.list.versions| &&
         forall v :: v in r.list.versions <==>
           v in fetched.versions && Wanted(v, forceIds, Split(status.value, ",")))
  {
    var r := VersionListOf(isDummy, planId, fetched, status, forceId);
    if status.Some? {
      var forceIds := if forceId.Some? then Split(forceId.value, ",") else [];
      var chosen := Filtered(fetched.versions, forceIds, Split(status.value, ","));
      assert r.list.versions == SortByDate(chosen);
      assert |multiset(SortByDate(chosen))| == |multiset(chosen)|;
      forall v ensures v in r.list.versions <==> v in chosen {
        assert v in r.list.versions <==> v in multiset(r.list.versions);
        assert v in chosen <==> v in multiset(chosen);
      }
    }
  }

  /** A forced id keeps its version whatever its status. */
  lemma ForcedKept(fetched: VersionList, v: Version, status: string, forceId: string)
    requires v in fetched.versions && IntToString(v.id) in Split(forceId, ",")
    ensures v in VersionListOf(false, Some(0), fetched, Some(status), Some(forceId)).list.versions
  {
    VersionListMeaning(false, Some(0), fetched, Some(status), Some(forceId));
  }

  /** The duplicate-name check of `post_version_by_project`. */
  method CheckVersionName(planId: Option<int>, allVersions: seq<Version>, name: string) returns (r: Outcome)
    ensures planId.None? ==> r == Fail(VersionsNotFound)
    ensures planId.Some? ==> (r == Fail(NameExists) <==> exists k :: 0 <= k < |allVersions| && allVersions[k].name == name)
    ensures planId.Some? && r.Fail? ==> r == Fail(NameExists)
  {
    if planId.None? {
      return Fail(VersionsNotFound);
    }
    if allVersions != [] {
      for i := 0 to |allVersions|
        invariant forall k :: 0 <= k < i ==> allVersions[k].name != name
      {
        if allVersions[i].name == name {
          return Fail(NameExists);
        }
      }
    }
    return Pass;
  }
}
