/** The Redis caches of `apis/resources/redis.py`: boolean flags stored as
    strings, the issue-family hash (parent issue id to a comma-separated list
    of child issue ids) and the per-project issue counters. */
module Redis {
  import opened Wrappers
  import opened Strs
  import opened PyList

  // ---------------------------------------------------------------------
  // Boolean flags
  // ---------------------------------------------------------------------

  /** How `bool_get` reads a stored value; `None` is a missing key. */
  function BoolValue(v: Option<string>): (r: bool)
    ensures v.None? ==> !r
    ensures r <==> v.Some? && |v.value| > 0 && Lower(v.value) in {"1", "true", "yes"}
  {
    match v
    case None => false
    case Some(s) => |s| > 0 && Lower(s) in {"1", "true", "yes"}
  }

  /** `str(value).lower()`, what `bool_set` stores. */
  function BoolText(b: bool): string {
    if b then "true" else "false"
  }

  /** Reading back what `bool_set` stored gives the boolean that was stored. */
  lemma BoolRoundTrip(b: bool)
    ensures BoolValue(Some(BoolText(b))) == b
  {
    if b {
      assert Lower("true") == "true" by {
        assert Lower("e") == "e";
        assert Lower("ue") == "ue";
        assert Lower("rue") == "rue";
      }
    } else {
      assert Lower("false") == "false" by {
        assert Lower("e") == "e";
        assert Lower("se") == "se";
        assert Lower("lse") == "lse";
        assert Lower("alse") == "alse";
      }
    }
  }

  // ---------------------------------------------------------------------
  // Issue-family hash
  // ---------------------------------------------------------------------

  /** The child ids the hash lists for `parent`, as `split(",")` gives them. */
  function ChildIds(m: map<string, string>, parent: string): seq<string> {
    if parent in m then Split(m[parent], ",") else []
  }

  lemma RemoveFirstNoComma(xs: seq<string>, x: string)
    requires forall k :: 0 <= k < |xs| ==> ',' !in xs[k]
    ensures forall k :: 0 <= k < |RemoveFirst(xs, x)| ==> ',' !in RemoveFirst(xs, x)[k]
  {
    if x in xs {
      RemoveFirstSplice(xs, x);
    }
  }

  /** The hash after `add_issue_relation(parent, son)`. */
  function AddedRelation(m: map<string, string>, parent: string, son: string): (r: map<string, string>)
    ensures forall q :: q != parent ==> (q in r <==> q in m)
    ensures forall q :: q != parent && q in m ==> r[q] == m[q]
    ensures parent in r
    ensures parent !in m ==> r[parent] == son
    ensures parent in m && son in ChildIds(m, parent) ==> r == m
  {
    if parent !in m then m[parent := son]
    else
      var ids := Split(m[parent], ",");
      if son !in ids then m[parent := Join(ids + [son], ",")] else m
  }

  /** After an add, `son` is listed under `parent`, appended after the
      children already there when it was not one of them. */
  lemma AddedChildren(m: map<string, string>, parent: string, son: string)
    requires ',' !in son
    ensures var before := ChildIds(m, parent);
            ChildIds(AddedRelation(m, parent, son), parent) ==
              if son in before then before else if parent in m then before + [son] else [son]
  {
    if parent !in m {
      IndexOfAbsent(son, ',');
    } else {
      var ids := Split(m[parent], ",");
      if son !in ids {
        SplitParts(m[parent], ',');
        SplitJoin(ids + [son], ',');
      }
    }
  }

  /** Adding the same child twice is the same as adding it once. */
  lemma AddIdempotent(m: map<string, string>, parent: string, son: string)
    requires ',' !in son
    ensures AddedRelation(AddedRelation(m, parent, son), parent, son) == AddedRelation(m, parent, son)
  {
    AddedChildren(m, parent, son);
  }

  /** The hash after `remove_issue_relation(parent, son)`. */
  function RemovedRelation(m: map<string, string>, parent: string, son: string): (r: map<string, string>)
    ensures parent !in m || son !in ChildIds(m, parent) ==> r == m
    ensures forall q :: q != parent ==> (q in r <==> q in m)
    ensures forall q :: q != parent && q in m ==> r[q] == m[q]
    ensures parent in m && ChildIds(m, parent) == [son] ==> r == m - {parent}
  {
    if parent !in m then m
    else
      var ids := Split(m[parent], ",");
      if son in ids then
        if |ids| == 1 then m - {parent} else m[parent := Join(RemoveFirst(ids, son), ",")]
      else m
  }

  /** After a removal the children listed under `parent` are the old ones
      with the first occurrence of `son` taken out, in order. */
  lemma RemovedChildren(m: map<string, string>, parent: string, son: string)
    ensures ChildIds(RemovedRelation(m, parent, son), parent) == RemoveFirst(ChildIds(m, parent), son)
  {
    if parent in m {
      var ids := Split(m[parent], ",");
      if son in ids && |ids| > 1 {
        SplitParts(m[parent], ',');
        RemoveFirstNoComma(ids, son);
        SplitJoin(RemoveFirst(ids, son), ',');
      } else if son in ids {
        assert ids == [son];
      }
    }
  }

  /** Removing a child that was just added restores the hash exactly. */
  lemma AddRemoveRoundTrip(m: map<string, string>, parent: string, son: string)
    requires ',' !in son
    requires son !in ChildIds(m, parent)
    ensures RemovedRelation(AddedRelation(m, parent, son), parent, son) == m
  {
    var a := AddedRelation(m, parent, son);
    AddedChildren(m, parent, son);
    if parent !in m {
      assert ChildIds(a, parent) == [son];
      assert a - {parent} == m;
    } else {
      var ids := Split(m[parent], ",");
      assert ChildIds(a, parent) == ids + [son];
      RemoveFirstAppended(ids, son);
      JoinSplit(m[parent], ",");
      assert ids != [];
      assert RemovedRelation(a, parent, son) == a[parent := Join(ids, ",")];
    }
  }

  /** A per-project issue-counter record; `updated_time` is not modelled. */
  datatype IssueCalc = IssueCalc(closedCount: int, overdueCount: int, totalCount: int, projectStatus: string)

  /** The record `get_certain_pj_issue_calc` returns for a project with no cache entry. */
  const DefaultCalc := IssueCalc(0, 0, 0, "not_started")

  /** The status `update_pj_issue_calc` derives from the counters. */
  function DerivedStatus(total: int, closed: int): (s: string)
    ensures s == "not_started" <==> total == 0
    ensures s == "closed" <==> total != 0 && total == closed
    ensures s == "in_progress" <==> total != 0 && total != closed
  {
    if total == 0 then "not_started" else if total == closed then "closed" else "in_progress"
  }

  /** The record's status agrees with its counters. */
  predicate StatusAgrees(c: IssueCalc) {
    c.projectStatus == DerivedStatus(c.totalCount, c.closedCount)
  }

  /** The record after `update_pj_issue_calc` with the given deltas. */
  function UpdatedCalc(c: IssueCalc, total: int, closed: int): (r: IssueCalc)
    ensures r.totalCount == c.totalCount + total
    ensures r.closedCount == c.closedCount + closed
    ensures r.overdueCount == c.overdueCount
    ensures StatusAgrees(r)
  {
    var t := c.totalCount + total;
    var cl := c.closedCount + closed;
    IssueCalc(cl, c.overdueCount, t, DerivedStatus(t, cl))
  }

  lemma DefaultAgrees()
    ensures StatusAgrees(DefaultCalc)
  {
  }

  /** Applying two updates adds up their deltas. */
  lemma UpdatesCompose(c: IssueCalc, t1: int, c1: int, t2: int, c2: int)
    ensures UpdatedCalc(UpdatedCalc(c, t1, c1), t2, c2) == UpdatedCalc(c, t1 + t2, c1 + c2)
  {
  }

  /** The Redis keys this back end uses: plain string keys and the two hashes. */
  class RedisStore {
    /** String keys (`str_get`/`str_set`/`bool_get`/`bool_set`). */
    var strings: map<string, string>
    /** The ISSUE_FAMILIES_KEY hash: parent issue id to comma-separated child ids. */
    var families: map<string, string>
    /** The PROJECT_ISSUE_CALCULATE_KEY hash: project id to its counter record. */
    var calcs: map<string, IssueCalc>

    constructor ()
      ensures strings == map[] && families == map[] && calcs == map[]
    {
      strings := map[];
      families := map[];
      calcs := map[];
    }

    /** `bool_get`: true only for a stored "1", "true" or "yes" in any case. */
    function BoolGet(key: string): (r: bool)
      reads this
      ensures key !in strings ==> !r
      ensures key in strings ==> (r <==> |strings[key]| > 0 && Lower(strings[key]) in {"1", "true", "yes"})
    {
      BoolValue(if key in strings then Some(strings[key]) else None)
    }

    /** `bool_set`: stores `str(value).lower()`. */
    method BoolSet(key: string, value: bool)
      modifies this
      ensures strings == old(strings)[key := BoolText(value)]
      ensures families == old(families) && calcs == old(calcs)
      ensures BoolGet(key) == value
    {
      strings := strings[key := BoolText(value)];
      BoolRoundTrip(value);
    }

    /** `check_issue_has_son`: the parent has an entry in the hash. */
    function HasSon(parent: string): (r: bool)
      reads this
      ensures r <==> ChildIds(families, parent) != []
    {
      parent in families
    }

    /** `update_issue_relations`: replaces the whole hash. */
    method UpdateIssueRelations(issueFamilies: map<string, string>)
      modifies this
      ensures families == issueFamilies
      ensures strings == old(strings) && calcs == old(calcs)
    {
      families := map[];
      if issueFamilies != map[] {
        families := issueFamilies;
      }
    }

    /** `remove_issue_relations`: deletes the parent's entry. */
    method RemoveIssueRelations(parent: string)
      modifies this
      ensures families == old(families) - {parent}
      ensures strings == old(strings) && calcs == old(calcs)
    {
      families := families - {parent};
    }

    /** `add_issue_relation`. */
    method AddIssueRelation(parent: string, son: string)
      modifies this
      ensures families == AddedRelation(old(families), parent, son)
      ensures strings == old(strings) && calcs == old(calcs)
    {
      if !HasSon(parent) {
        families := families[parent := son];
      } else {
        var sonIds := Split(families[parent], ",");
        if son !in sonIds {
          families := families[parent := Join(sonIds + [son], ",")];
        }
      }
    }

    /** `remove_issue_relation`. */
    method RemoveIssueRelation(parent: string, son: string)
      modifies this
      ensures families == RemovedRelation(old(families), parent, son)
      ensures strings == old(strings) && calcs == old(calcs)
    {
      if parent !in families {
        return;
      }
      var sonIds := Split(families[parent], ",");
      if son in sonIds {
        if |sonIds| == 1 {
          families := families - {parent};
        } else {
          families := families[parent := Join(RemoveFirst(sonIds, son), ",")];
        }
      }
    }

    /** `get_certain_pj_issue_calc`: the cached record, or the all-zero one. */
    function CertainCalc(pj: string): (r: IssueCalc)
      reads this
      ensures pj !in calcs ==> r == DefaultCalc
      ensures pj in calcs ==> r == calcs[pj]
    {
      if pj in calcs then calcs[pj] else DefaultCalc
    }

    /** `update_pj_issue_calc`. */
    method UpdatePjIssueCalc(pj: string, total: int, closed: int)
      modifies this
      ensures calcs == old(calcs)[pj := UpdatedCalc(old(CertainCalc(pj)), total, closed)]
      ensures StatusAgrees(CertainCalc(pj))
      ensures strings == old(strings) && families == old(families)
    {
      var c := CertainCalc(pj);
      var t := c.totalCount + total;
      var cl := c.closedCount + closed;
      var status: string;
      if t == 0 {
        status := "not_started";
      } else if t == cl {
        status := "closed";
      } else {
        status := "in_progress";
      }
      calcs := calcs[pj := IssueCalc(cl, c.overdueCount, t, status)];
    }
  }
}
