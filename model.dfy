/** The parts of `apis/model.py` with logic in them: the `@validates` hooks
    of IssueDisplayField, AlertMessage and CustomIssueFilter, and UIRouteData,
    the UI route table whose rows form, per parent, a singly linked list of
    siblings through `old_brother` (the id of the previous sibling, 0 for the
    first one). */
module Model {
  import opened Wrappers
  import StrOrder

  // ---------------------------------------------------------------------
  // @validates hooks
  // ---------------------------------------------------------------------

  /** The types an issue display field may have. */
  const DisplayFieldTypes: seq<string> := ["wbs_cache", "issue_list"]
  const DisplayFieldTypeMessage: string := "Type must in wbs_cache / issue_list."

  /** `IssueDisplayField.validate_type`: a NULL type or one of the listed
      types is stored unchanged, anything else is refused. */
  function ValidateDisplayFieldType(t: Option<string>): (r: Result<Option<string>>)
    ensures r.Ok? <==> t.None? || t.value in DisplayFieldTypes
    ensures r.Ok? ==> r.value == t
    ensures r.Err? ==> r.error == AssertionErr(DisplayFieldTypeMessage)
  {
    if t.Some? && t.value !in DisplayFieldTypes then Err(AssertionErr(DisplayFieldTypeMessage))
    else Ok(t)
  }

  /** The services an alert message may come from. */
  const ResourceTypes: seq<string> := ["system", "kubernetes", "redmine", "gitlab", "harbor", "sonarqube", "rancher", "github"]
  const ResourceTypeMessage: string := "Resource_type must in system / kubernetes / redmine / gitlab / harbor / sonarqube / rancher / github."

  /** `AlertMessage.validate_resource_type`. */
  function ValidateResourceType(t: Option<string>): (r: Result<Option<string>>)
    ensures r.Ok? <==> t.None? || t.value in ResourceTypes
    ensures r.Ok? ==> r.value == t
    ensures r.Err? ==> r.error == AssertionErr(ResourceTypeMessage)
  {
    if t.Some? && t.value !in ResourceTypes then Err(AssertionErr(ResourceTypeMessage))
    else Ok(t)
  }

  /** The views a custom issue filter may belong to. */
  const FilterTypes: seq<string> := ["issue_list", "issue_board", "my_work"]
  const FilterTypeMessage: string := "Type must in issue_list / issue_board / my_work."

  /** `CustomIssueFilter.validate_type`. */
  function ValidateFilterType(t: Option<string>): (r: Result<Option<string>>)
    ensures r.Ok? <==> t.None? || t.value in FilterTypes
    ensures r.Ok? ==> r.value == t
    ensures r.Err? ==> r.error == AssertionErr(FilterTypeMessage)
  {
    if t.Some? && t.value !in FilterTypes then Err(AssertionErr(FilterTypeMessage))
    else Ok(t)
  }

  /** The keys a custom issue filter must have, in sorted order. */
  const ExpectedFilterKeys: seq<string> := [
    "assigned_to_id", "fixed_version_id", "focus_tab", "group_by", "priority_id",
    "show_closed_issues", "show_closed_versions", "status_id", "tags", "tracker_id"
  ]
  const FilterKeysMessage: string := "Custom filter keys must be the same as ['assigned_to_id', 'fixed_version_id', 'focus_tab', 'group_by', 'priority_id', 'show_closed_issues', 'show_closed_versions', 'status_id', 'tags', 'tracker_id']."

  /** Ten strings each at least their predecessor are sorted. */
  lemma SortedTen(a0: string, a1: string, a2: string, a3: string, a4: string, a5: string, a6: string, a7: string, a8: string, a9: string)
    requires !StrOrder.Less(a1, a0) && !StrOrder.Less(a2, a1) && !StrOrder.Less(a3, a2)
    requires !StrOrder.Less(a4, a3) && !StrOrder.Less(a5, a4) && !StrOrder.Less(a6, a5)
    requires !StrOrder.Less(a7, a6) && !StrOrder.Less(a8, a7) && !StrOrder.Less(a9, a8)
    ensures StrOrder.Sorted([a0, a1, a2, a3, a4, a5, a6, a7, a8, a9])
  {
    StrOrder.SortedFromNeighbours([a0, a1, a2, a3, a4, a5, a6, a7, a8, a9]);
  }

  lemma FilterKeysOrdered1() ensures !StrOrder.Less("fixed_version_id", "assigned_to_id") {}
  lemma FilterKeysOrdered2() ensures !StrOrder.Less("focus_tab", "fixed_version_id") {}
  lemma FilterKeysOrdered3() ensures !StrOrder.Less("group_by", "focus_tab") {}
  lemma FilterKeysOrdered4() ensures !StrOrder.Less("priority_id", "group_by") {}
  lemma FilterKeysOrdered5() ensures !StrOrder.Less("show_closed_issues", "priority_id") {}
  lemma FilterKeysOrdered6() ensures !StrOrder.Less("show_closed_versions", "show_closed_issues") {}
  lemma FilterKeysOrdered7() ensures !StrOrder.Less("status_id", "show_closed_versions") {}
  lemma FilterKeysOrdered8() ensures !StrOrder.Less("tags", "status_id") {}
  lemma FilterKeysOrdered9() ensures !StrOrder.Less("tracker_id", "tags") {}

  lemma ExpectedFilterKeysSorted()
    ensures StrOrder.Sorted(ExpectedFilterKeys)
  {
    FilterKeysOrdered1(); FilterKeysOrdered2(); FilterKeysOrdered3(); FilterKeysOrdered4(); FilterKeysOrdered5();
    FilterKeysOrdered6(); FilterKeysOrdered7(); FilterKeysOrdered8(); FilterKeysOrdered9();
    SortedTen("assigned_to_id", "fixed_version_id", "focus_tab", "group_by", "priority_id",
      "show_closed_issues", "show_closed_versions", "status_id", "tags", "tracker_id");
  }

  /** A key list sorts to the expected one exactly when it holds the same keys. */
  lemma SortedIsExpected(keys: seq<string>)
    ensures StrOrder.Sort(keys) == ExpectedFilterKeys <==> multiset(keys) == multiset(ExpectedFilterKeys)
  {
    if multiset(keys) == multiset(ExpectedFilterKeys) {
      ExpectedFilterKeysSorted();
      StrOrder.SortPermutation(keys, ExpectedFilterKeys);
      StrOrder.SortSorted(ExpectedFilterKeys);
    }
  }

  /** `CustomIssueFilter.validate_custom_filter`, given `list(custom_filter.keys())`:
      the sorted key list must be exactly the expected one, so the filter
      passes exactly when it has the ten expected keys and no others. */
  function ValidateCustomFilter(keys: seq<string>): (r: Outcome)
    ensures r.Pass? <==> multiset(keys) == multiset(ExpectedFilterKeys)
    ensures r.Fail? ==> r.error == AssertionErr(FilterKeysMessage)
  {
    SortedIsExpected(keys);
    if StrOrder.Sort(keys) != ExpectedFilterKeys then Fail(AssertionErr(FilterKeysMessage))
    else Pass
  }

  // ---------------------------------------------------------------------
  // The UI route table
  // ---------------------------------------------------------------------

  /** The value a NULL integer column holds in this model. Row ids are
      positive, so it never collides with one; `filter_by(col=None)` (SQL
      `IS NULL`) is the comparison with it. */
  const Null: int := -1

  /** A JSON value, as the `ui_route` column holds it. */
  datatype Json =
    | JNull
    | JBool(b: bool)
    | JNum(n: int)
    | JStr(s: string)
    | JList(items: seq<Json>)
    | JObj(fields: map<string, Json>)

  /** A UIRouteData row; the timestamps and the unused `visible` flag are
      not modelled. */
  datatype RouteRow = RouteRow(id: int, name: string, role: string, parent: int, oldBrother: int, uiRoute: map<string, Json>)

  /** A `query.filter_by(...)`: each present field must match. */
  datatype Filter = Filter(id: Option<int>, name: Option<string>, role: Option<string>, parent: Option<int>, oldBrother: Option<int>)

  predicate Fits(r: RouteRow, f: Filter) {
    (f.id.None? || r.id == f.id.value) &&
    (f.name.None? || r.name == f.name.value) &&
    (f.role.None? || r.role == f.role.value) &&
    (f.parent.None? || r.parent == f.parent.value) &&
    (f.oldBrother.None? || r.oldBrother == f.oldBrother.value)
  }

  /** `.first()`: the position of the first row, in table order, that fits. */
  function FirstAt(rows: seq<RouteRow>, f: Filter): (r: Option<nat>)
    ensures r.Some? ==> r.value < |rows| && Fits(rows[r.value], f)
  {
    if rows == [] then None
    else if Fits(rows[0], f) then Some(0)
    else match FirstAt(rows[1..], f)
      case None => None
      case Some(k) => Some(k + 1)
  }

  /** `.first()` finds nothing exactly when no row fits, and otherwise no
      earlier row fits. */
  lemma {:induction false} FirstAtIsFirst(rows: seq<RouteRow>, f: Filter)
    ensures FirstAt(rows, f).None? <==> forall j :: 0 <= j < |rows| ==> !Fits(rows[j], f)
    ensures FirstAt(rows, f).Some? ==> forall j :: 0 <= j < FirstAt(rows, f).value ==> !Fits(rows[j], f)
  {
    if rows != [] && !Fits(rows[0], f) {
      FirstAtIsFirst(rows[1..], f);
      assert forall j :: 1 <= j < |rows| ==> rows[j] == rows[1..][j - 1];
    }
  }

  /** `.all()`: the rows that fit, in table order. */
  function Matching(rows: seq<RouteRow>, f: Filter): (r: seq<RouteRow>)
    ensures |r| <= |rows|
    ensures forall k :: 0 <= k < |r| ==> Fits(r[k], f)
  {
    if rows == [] then []
    else (if Fits(rows[0], f) then [rows[0]] else []) + Matching(rows[1..], f)
  }

  /** `.all()` holds exactly the rows that fit. */
  lemma {:induction false} MatchingMembers(rows: seq<RouteRow>, f: Filter)
    ensures forall x :: x in Matching(rows, f) <==> x in rows && Fits(x, f)
  {
    if rows != [] {
      MatchingMembers(rows[1..], f);
      assert rows == [rows[0]] + rows[1..];
    }
  }

  /** `.count()`. */
  function Count(rows: seq<RouteRow>, f: Filter): nat {
    |Matching(rows, f)|
  }

  function ByParentOldBrother(parent: int, oldBrother: int): Filter {
    Filter(None, None, None, Some(parent), Some(oldBrother))
  }

  // ---------------------------------------------------------------------
  // UIRouteData navigation
  // ---------------------------------------------------------------------

  /** `is_child`. */
  predicate IsChild(n: RouteRow) {
    n.parent != 0
  }

  /** `children_nodes`: the rows whose parent is this node, of any role. */
  function ChildrenNodes(rows: seq<RouteRow>, n: RouteRow): (r: seq<RouteRow>)
    ensures forall k :: 0 <= k < |r| ==> r[k].parent == n.id
  {
    Matching(rows, Filter(None, None, None, Some(n.id), None))
  }

  /** `children_nodes` holds exactly the rows whose parent is this node. */
  lemma ChildrenNodesMembers(rows: seq<RouteRow>, n: RouteRow)
    ensures forall x :: x in ChildrenNodes(rows, n) <==> x in rows && x.parent == n.id
  {
    MatchingMembers(rows, Filter(None, None, None, Some(n.id), None));
  }

  /** `is_parent`. */
  predicate IsParent(rows: seq<RouteRow>, n: RouteRow) {
    |ChildrenNodes(rows, n)| > 0
  }

  /** `node_counts`: the siblings of this node that share its role, itself included. */
  function NodeCounts(rows: seq<RouteRow>, n: RouteRow): nat {
    Count(rows, Filter(None, None, Some(n.role), Some(n.parent), None))
  }

  /** A node is a parent exactly when some row names it as parent, and a
      node of the table counts itself among its role's siblings. */
  lemma FamilyQueries(rows: seq<RouteRow>, n: RouteRow)
    ensures IsParent(rows, n) <==> exists j :: 0 <= j < |rows| && rows[j].parent == n.id
    ensures n in rows ==> 1 <= NodeCounts(rows, n) <= |rows|
  {
    ChildrenNodesMembers(rows, n);
    MatchingMembers(rows, Filter(None, None, Some(n.role), Some(n.parent), None));
    if IsParent(rows, n) {
      var x := ChildrenNodes(rows, n)[0];
      assert x in ChildrenNodes(rows, n);
    }
  }

  /** `first_node` as written: the first row under the same parent whose
      old_brother is 0, whatever its role. */
  function FirstNode(rows: seq<RouteRow>, n: RouteRow): (r: Option<nat>)
    ensures r.Some? ==> r.value < |rows| && rows[r.value].parent == n.parent && rows[r.value].oldBrother == 0
  {
    FirstAt(rows, ByParentOldBrother(n.parent, 0))
  }

  /** `first_node` restricted to the node's own role, as the other lookups
      of the sibling list (`node_counts`, the top-level list of
      `display_by_permission`) are. */
  function FirstNodeOfRole(rows: seq<RouteRow>, n: RouteRow): (r: Option<nat>)
    ensures r.Some? ==> r.value < |rows| && rows[r.value].parent == n.parent && rows[r.value].oldBrother == 0 && rows[r.value].role == n.role
  {
    FirstAt(rows, Filter(None, None, Some(n.role), Some(n.parent), Some(0)))
  }

  /** `first_node` of the role finds nothing exactly when no row under the
      same parent and of the same role has old_brother 0. */
  lemma FirstNodeOfRoleNone(rows: seq<RouteRow>, n: RouteRow)
    ensures FirstNodeOfRole(rows, n).None? <==>
      forall j :: 0 <= j < |rows| ==> !(rows[j].parent == n.parent && rows[j].oldBrother == 0 && rows[j].role == n.role)
  {
    FirstAtIsFirst(rows, Filter(None, None, Some(n.role), Some(n.parent), Some(0)));
  }

  /** `prev_node`: none for a first sibling, else the sibling whose id is old_brother. */
  function PrevNode(rows: seq<RouteRow>, n: RouteRow): (r: Option<nat>)
    ensures n.oldBrother == 0 ==> r.None?
    ensures r.Some? ==> r.value < |rows| && rows[r.value].id == n.oldBrother && rows[r.value].parent == n.parent
  {
    if n.oldBrother == 0 then None
    else FirstAt(rows, Filter(Some(n.oldBrother), None, None, Some(n.parent), None))
  }

  /** A node with a non-zero old_brother has no previous node exactly when
      no sibling carries that id. */
  lemma PrevNodeNone(rows: seq<RouteRow>, n: RouteRow)
    requires n.oldBrother != 0
    ensures PrevNode(rows, n).None? <==> forall j :: 0 <= j < |rows| ==> !(rows[j].id == n.oldBrother && rows[j].parent == n.parent)
  {
    FirstAtIsFirst(rows, Filter(Some(n.oldBrother), None, None, Some(n.parent), None));
  }

  /** `next_node`: the first sibling whose old_brother is this node's id. */
  function NextNode(rows: seq<RouteRow>, n: RouteRow): (r: Option<nat>)
    ensures r.Some? ==> r.value < |rows| && rows[r.value].oldBrother == n.id && rows[r.value].parent == n.parent
  {
    FirstAt(rows, ByParentOldBrother(n.parent, n.id))
  }

  /** A node is the last of its list exactly when no sibling names it as
      old_brother. */
  lemma NextNodeNone(rows: seq<RouteRow>, n: RouteRow)
    ensures NextNode(rows, n).None? <==> forall j :: 0 <= j < |rows| ==> !(rows[j].oldBrother == n.id && rows[j].parent == n.parent)
  {
    FirstAtIsFirst(rows, ByParentOldBrother(n.parent, n.id));
  }

  /** The position reached from row `i` after `k` `next_node` steps, if
      the list does not end before. */
  function Walk(rows: seq<RouteRow>, i: nat, k: nat): (r: Option<nat>)
    requires i < |rows|
    ensures r.Some? ==> r.value < |rows|
    decreases k
  {
    if k == 0 then Some(i)
    else match NextNode(rows, rows[i])
      case None => None
      case Some(n) => Walk(rows, n, k - 1)
  }

  /** Step `k` of the walk from `i` is the row with id `target`. */
  predicate Reaches(rows: seq<RouteRow>, i: nat, target: int, k: nat)
    requires i < |rows|
  {
    Walk(rows, i, k).Some? && rows[Walk(rows, i, k).value].id == target
  }

  /** No step up to `bound` of the walk from `i` is the row with id `target`. */
  predicate NeverReaches(rows: seq<RouteRow>, i: nat, target: int, bound: int)
    requires i < |rows|
  {
    forall k :: 0 <= k <= bound ==> !Reaches(rows, i, target, k)
  }

  /** The row with id `target` is the `n`-th one of the walk from `i`, counting from 1. */
  predicate PositionFrom(rows: seq<RouteRow>, i: nat, target: int, n: nat)
    requires i < |rows|
  {
    n >= 1 && Reaches(rows, i, target, n - 1) && NeverReaches(rows, i, target, n - 2)
  }

  /** The walk from `i` ends at row `last` after `k` steps. */
  predicate EndsAt(rows: seq<RouteRow>, i: nat, k: nat, last: nat)
    requires i < |rows|
  {
    Walk(rows, i, k) == Some(last) && NextNode(rows, rows[last]).None?
  }

  const NoneMessage: string := "'NoneType' object has no attribute 'id'"
  const LoopMessage: string := "the sibling list loops back on itself"

  function Shifted(r: Result<nat>, d: nat): Result<nat> {
    if r.Ok? then Ok(r.value + d) else r
  }

  /** The count `node_index` makes from row `j`, with at most `fuel` more
      steps before the walk is taken to go round a cycle. */
  function StepsFrom(rows: seq<RouteRow>, j: nat, target: int, fuel: nat): Result<nat>
    requires j < |rows|
    decreases fuel
  {
    if rows[j].id == target then Ok(1)
    else if fuel == 0 then Err(Crash(LoopMessage))
    else match NextNode(rows, rows[j])
      case None => Err(Crash(NoneMessage))
      case Some(n) => Shifted(StepsFrom(rows, n, target, fuel - 1), 1)
  }

  /** `node_index` of row `i`, as `RouteTable.NodeIndex` computes it. */
  function NodeIndexOf(rows: seq<RouteRow>, i: nat): Result<nat>
    requires i < |rows|
  {
    match FirstNodeOfRole(rows, rows[i])
    case None => Err(Crash(NoneMessage))
    case Some(f) => StepsFrom(rows, f, rows[i].id, |rows|)
  }

  /** One step of the count: a row other than the target passes the count on to its next node. */
  lemma StepsFromStep(rows: seq<RouteRow>, j: nat, target: int, fuel: nat, n: nat, d: nat)
    requires j < |rows| && rows[j].id != target && fuel > 0 && NextNode(rows, rows[j]) == Some(n)
    ensures Shifted(StepsFrom(rows, j, target, fuel), d) == Shifted(StepsFrom(rows, n, target, fuel - 1), d + 1)
  {
  }

  /** The count is the position of `target` on the walk; a failed count
      means the walk does not reach it within `fuel` steps. */
  lemma {:induction false} StepsFromMeaning(rows: seq<RouteRow>, j: nat, target: int, fuel: nat)
    requires j < |rows|
    ensures StepsFrom(rows, j, target, fuel).Ok? ==> PositionFrom(rows, j, target, StepsFrom(rows, j, target, fuel).value)
    ensures StepsFrom(rows, j, target, fuel).Err? ==> NeverReaches(rows, j, target, fuel)
    decreases fuel
  {
    if rows[j].id != target && fuel > 0 {
      match NextNode(rows, rows[j])
      case None =>
      case Some(n) =>
        StepsFromMeaning(rows, n, target, fuel - 1);
        var s := StepsFrom(rows, n, target, fuel - 1);
        if s.Ok? {
          assert Reaches(rows, j, target, s.value) == Reaches(rows, n, target, s.value - 1);
          forall k | 0 <= k <= s.value - 1 ensures !Reaches(rows, j, target, k) {
            if k > 0 {
              assert Reaches(rows, j, target, k) == Reaches(rows, n, target, k - 1);
            }
          }
        } else {
          forall k | 0 <= k <= fuel ensures !Reaches(rows, j, target, k) {
            if k > 0 {
              assert Reaches(rows, j, target, k) == Reaches(rows, n, target, k - 1);
            }
          }
        }
    }
  }

  /** The node `last_node` stops at from row `j`, with at most `fuel`
      more steps before the walk is taken to go round a cycle. */
  function LastFrom(rows: seq<RouteRow>, j: nat, fuel: nat): (r: Result<nat>)
    requires j < |rows|
    ensures r.Ok? ==> r.value < |rows|
    decreases fuel
  {
    match NextNode(rows, rows[j])
    case None => Ok(j)
    case Some(n) => if fuel == 0 then Err(Crash(LoopMessage)) else LastFrom(rows, n, fuel - 1)
  }

  /** The last node is where the walk ends; a failed search means the walk
      goes on for more than `fuel` steps. */
  lemma {:induction false} LastFromMeaning(rows: seq<RouteRow>, j: nat, fuel: nat)
    requires j < |rows|
    ensures LastFrom(rows, j, fuel).Ok? ==> exists k :: 0 <= k <= fuel && EndsAt(rows, j, k, LastFrom(rows, j, fuel).value)
    ensures LastFrom(rows, j, fuel).Err? ==> forall k :: 0 <= k <= fuel + 1 ==> Walk(rows, j, k).Some?
    decreases fuel
  {
    match NextNode(rows, rows[j])
    case None =>
      assert EndsAt(rows, j, 0, j);
    case Some(n) =>
      if fuel > 0 {
        LastFromMeaning(rows, n, fuel - 1);
        var l := LastFrom(rows, n, fuel - 1);
        if l.Ok? {
          var k :| 0 <= k <= fuel - 1 && EndsAt(rows, n, k, l.value);
          assert Walk(rows, j, k + 1) == Walk(rows, n, k);
          assert EndsAt(rows, j, k + 1, l.value);
        } else {
          forall k | 0 <= k <= fuel + 1 ensures Walk(rows, j, k).Some? {
            if k > 0 {
              assert Walk(rows, j, k) == Walk(rows, n, k - 1);
            }
          }
        }
      } else {
        assert Walk(rows, j, 0) == Some(j);
        assert Walk(rows, j, 1) == Some(n);
      }
  }

  /** The rows after the `prev_node` setter on row `i`: its old_brother
      becomes the id of row `p`, or 0 for None. */
  function WithPrev(rows: seq<RouteRow>, i: nat, p: Option<nat>): (r: seq<RouteRow>)
    requires i < |rows| && (p.Some? ==> p.value < |rows|)
    ensures |r| == |rows|
  {
    rows[i := rows[i].(oldBrother := if p.Some? then rows[p.value].id else 0)]
  }

  /** Ids are unique and positive, as the autoincrement key makes them. */
  predicate UniqueIds(rows: seq<RouteRow>) {
    (forall a :: 0 <= a < |rows| ==> rows[a].id > 0) &&
    (forall a, b :: 0 <= a < b < |rows| ==> rows[a].id != rows[b].id)
  }

  /** The setter and the getter agree: with unique ids, a prev_node set to
      a sibling reads back as that sibling, and one set to None reads back
      as None. */
  lemma PrevAfterSet(rows: seq<RouteRow>, i: nat, p: Option<nat>)
    requires i < |rows| && (p.Some? ==> p.value < |rows| && rows[p.value].parent == rows[i].parent)
    requires UniqueIds(rows)
    ensures var after := WithPrev(rows, i, p); PrevNode(after, after[i]) == p
  {
    if p.Some? {
      var j := p.value;
      var after := WithPrev(rows, i, p);
      var f := Filter(Some(rows[j].id), None, None, Some(rows[i].parent), None);
      assert Fits(after[j], f);
      FirstAtIsFirst(after, f);
    }
  }

  /** The UI route table. */
  class RouteTable {
    /** The rows, in table order. */
    var rows: seq<RouteRow>

    constructor (rows: seq<RouteRow>)
      ensures this.rows == rows
    {
      this.rows := rows;
    }

    /** `node_index` of row `i`: the 1-based number of the `next_node`
        steps from the node's first sibling of its role to it. When there
        is no such first sibling, or the list ends first, `node_index`
        dereferences None; a walk longer than the table can only go round
        a cycle, where the loop never ends. */
    method NodeIndex(i: nat) returns (r: Result<nat>)
      requires i < |rows|
      ensures r.Ok? ==> (FirstNodeOfRole(rows, rows[i]).Some? &&
        PositionFrom(rows, FirstNodeOfRole(rows, rows[i]).value, rows[i].id, r.value))
      ensures r.Err? ==> (FirstNodeOfRole(rows, rows[i]).None? ||
        NeverReaches(rows, FirstNodeOfRole(rows, rows[i]).value, rows[i].id, |rows|))
      ensures r == NodeIndexOf(rows, i)
    {
      var first := FirstNodeOfRole(rows, rows[i]);
      if first.None? {
        return Err(Crash(NoneMessage));
      }
      r := CountSteps(first.value, rows[i].id);
      StepsFromMeaning(rows, first.value, rows[i].id, |rows|);
    }

    /** The loop of `node_index`: counts the nodes from row `f` along
        `next_node` up to the one whose id is `target`. */
    method CountSteps(f: nat, target: int) returns (r: Result<nat>)
      requires f < |rows|
      ensures r == StepsFrom(rows, f, target, |rows|)
    {
      var rs := rows;
      var checker: nat := f;
      var index := 1;
      while rs[checker].id != target
        invariant 1 <= index <= |rs| + 1
        invariant checker < |rs|
        invariant Shifted(StepsFrom(rs, checker, target, |rs| + 1 - index), index - 1) == StepsFrom(rs, f, target, |rs|)
        decreases |rs| + 1 - index
      {
        if index == |rs| + 1 {
          return Err(Crash(LoopMessage));
        }
        var nx := NextNode(rs, rs[checker]);
        if nx.None? {
          return Err(Crash(NoneMessage));
        }
        StepsFromStep(rs, checker, target, |rs| + 1 - index, nx.value, index - 1);
        checker := nx.value;
        index := index + 1;
      }
      return Ok(index);
    }

    /** `last_node` of row `i`: follows `next_node` until there is none. */
    method LastNode(i: nat) returns (r: Result<nat>)
      requires i < |rows|
      ensures r == LastFrom(rows, i, |rows|)
      ensures r.Ok? ==> exists k :: 0 <= k <= |rows| && EndsAt(rows, i, k, r.value)
      ensures r.Err? ==> forall k :: 0 <= k <= |rows| + 1 ==> Walk(rows, i, k).Some?
    {
      var rs := rows;
      var node: nat := i;
      var steps := 0;
      while NextNode(rs, rs[node]).Some?
        invariant 0 <= steps <= |rs|
        invariant node < |rs|
        invariant LastFrom(rs, node, |rs| - steps) == LastFrom(rs, i, |rs|)
        decreases |rs| - steps
      {
        if steps == |rs| {
          r := Err(Crash(LoopMessage));
          LastFromMeaning(rows, i, |rows|);
          return;
        }
        node := NextNode(rs, rs[node]).value;
        steps := steps + 1;
      }
      r := Ok(node);
      LastFromMeaning(rows, i, |rows|);
    }

    /** The `prev_node` setter on row `i`. */
    method SetPrevNode(i: nat, node: Option<nat>)
      requires i < |rows| && (node.Some? ==> node.value < |rows|)
      modifies this
      ensures rows == WithPrev(old(rows), i, node)
    {
      if node.Some? {
        rows := rows[i := rows[i].(oldBrother := rows[node.value].id)];
      } else {
        rows := rows[i := rows[i].(oldBrother := 0)];
      }
    }

    /** The `next_node` setter on row `i`: the given node's prev_node
        becomes this one; with None, the current next node, if any, loses
        its prev_node. */
    method SetNextNode(i: nat, node: Option<nat>)
      requires i < |rows| && (node.Some? ==> node.value < |rows|)
      modifies this
      ensures node.Some? ==> rows == WithPrev(old(rows), node.value, Some(i))
      ensures node.None? ==> var nx := NextNode(old(rows), old(rows)[i]);
        rows == if nx.Some? then WithPrev(old(rows), nx.value, None) else old(rows)
    {
      if node.Some? {
        SetPrevNode(node.value, Some(i));
      } else {
        var nx := NextNode(rows, rows[i]);
        if nx.Some? {
          SetPrevNode(nx.value, None);
        }
      }
    }
  }

  // ---------------------------------------------------------------------
  // first_node and roles
  // ---------------------------------------------------------------------

  /** Two top-level routes of different roles, each the head of its own list. */
  const TwoRoles: seq<RouteRow> := [
    RouteRow(1, "dashboard", "Administrator", 0, 0, map[]),
    RouteRow(2, "dashboard", "Engineer", 0, 0, map[])
  ]

  /** `first_node` as written: for the Engineer's head route it picks the
      Administrator's, whose list never reaches the Engineer's route, so
      `node_index` dereferences None. The role-restricted lookup finds the
      route itself. */
  lemma FirstNodeIgnoresRole()
    ensures FirstNode(TwoRoles, TwoRoles[1]) == Some(0)
    ensures NeverReaches(TwoRoles, 0, TwoRoles[1].id, |TwoRoles|)
    ensures FirstNodeOfRole(TwoRoles, TwoRoles[1]) == Some(1)
  {
    assert Fits(TwoRoles[0], ByParentOldBrother(0, 0));
    assert !Fits(TwoRoles[0], Filter(None, None, Some("Engineer"), Some(0), Some(0)));
    assert FirstAt(TwoRoles, ByParentOldBrother(0, 1)) == None by {
      assert !Fits(TwoRoles[0], ByParentOldBrother(0, 1));
      assert !Fits(TwoRoles[1], ByParentOldBrother(0, 1));
    }
    assert StepsFrom(TwoRoles, 0, TwoRoles[1].id, |TwoRoles|).Err?;
    StepsFromMeaning(TwoRoles, 0, TwoRoles[1].id, |TwoRoles|);
  }

  /** With the role-restricted lookup, a route heading its role's list has
      index 1. */
  lemma HeadIndexOne(rows: seq<RouteRow>, i: nat)
    requires i < |rows| && rows[i].oldBrother == 0
    requires forall j :: 0 <= j < i ==> !(rows[j].parent == rows[i].parent && rows[j].oldBrother == 0 && rows[j].role == rows[i].role)
    ensures FirstNodeOfRole(rows, rows[i]) == Some(i)
    ensures PositionFrom(rows, i, rows[i].id, 1)
  {
    FirstAtIsFirst(rows, Filter(None, None, Some(rows[i].role), Some(rows[i].parent), Some(0)));
  }

  // ---------------------------------------------------------------------
  // Sibling lists
  // ---------------------------------------------------------------------

  /** Every position of `seg` is a row of the table. */
  predicate InTable(rows: seq<RouteRow>, seg: seq<nat>) {
    forall k :: 0 <= k < |seg| ==> seg[k] < |rows|
  }

  /** No position occurs twice. */
  predicate Distinct(seg: seq<nat>) {
    forall a, b :: 0 <= a < b < |seg| ==> seg[a] != seg[b]
  }

  /** The positions of `seg`, as a set. */
  function Members(seg: seq<nat>): set<nat> {
    set k | 0 <= k < |seg| :: seg[k]
  }

  /** The id of the last row of `seg`, or `p` when it is empty. */
  function LastId(rows: seq<RouteRow>, seg: seq<nat>, p: int): int
    requires InTable(rows, seg)
  {
    if seg == [] then p else rows[seg[|seg| - 1]].id
  }

  /** Row `seg[k]` names the row before it in `seg`, or `p` for the first, as old brother. */
  predicate LinkAt(rows: seq<RouteRow>, seg: seq<nat>, p: int, k: nat)
    requires InTable(rows, seg) && k < |seg|
  {
    rows[seg[k]].oldBrother == if k == 0 then p else rows[seg[k - 1]].id
  }

  /** Every row of `seg` is linked to the one before it, the first to `p`. */
  predicate LinkedAfter(rows: seq<RouteRow>, seg: seq<nat>, p: int)
    requires InTable(rows, seg)
  {
    forall k :: 0 <= k < |seg| ==> LinkAt(rows, seg, p, k)
  }

  /** `chain` is the sibling list of the rows under `parent` with role
      `role`, in list order: it holds each of those rows once, its head has
      old_brother 0, every later row names the one before it, and no other
      row under the parent names one of them as old brother (`next_node`
      does not look at the role). */
  predicate SiblingChain(rows: seq<RouteRow>, chain: seq<nat>, parent: int, role: string) {
    UniqueIds(rows) && |chain| > 0 && InTable(rows, chain) && Distinct(chain) &&
    (forall k :: 0 <= k < |chain| ==> rows[chain[k]].parent == parent && rows[chain[k]].role == role) &&
    (forall j :: 0 <= j < |rows| && rows[j].parent == parent && rows[j].role == role ==> j in chain) &&
    LinkedAfter(rows, chain, 0) && NamedOnlyWithin(rows, chain, parent)
  }

  /** A row under `parent` whose old brother is an entry of `chain` is itself an entry. */
  predicate NamedOnlyWithin(rows: seq<RouteRow>, chain: seq<nat>, parent: int)
    requires InTable(rows, chain)
  {
    forall j, k :: 0 <= j < |rows| && 0 <= k < |chain| && rows[j].parent == parent && rows[j].oldBrother == rows[chain[k]].id ==> j in chain
  }

  /** Along a sibling list `next_node` is the next entry, and none after the last. */
  lemma ChainNext(rows: seq<RouteRow>, chain: seq<nat>, parent: int, role: string, k: nat)
    requires SiblingChain(rows, chain, parent, role) && k < |chain|
    ensures NextNode(rows, rows[chain[k]]) == if k + 1 < |chain| then Some(chain[k + 1]) else None
  {
    var n := rows[chain[k]];
    var f := ByParentOldBrother(parent, n.id);
    FirstAtIsFirst(rows, f);
    if k + 1 < |chain| {
      assert LinkAt(rows, chain, 0, k + 1);
      assert Fits(rows[chain[k + 1]], f);
    }
    var r := NextNode(rows, n);
    if r.Some? {
      var x := r.value;
      assert x in chain;
      var q :| 0 <= q < |chain| && chain[q] == x;
      assert LinkAt(rows, chain, 0, q);
      assert q != 0;
      assert chain[q - 1] == chain[k];
    }
  }

  /** Along a sibling list `prev_node` is the entry before, and none for the head. */
  lemma ChainPrev(rows: seq<RouteRow>, chain: seq<nat>, parent: int, role: string, k: nat)
    requires SiblingChain(rows, chain, parent, role) && k < |chain|
    ensures PrevNode(rows, rows[chain[k]]) == if k == 0 then None else Some(chain[k - 1])
  {
    assert LinkAt(rows, chain, 0, k);
    if k > 0 {
      var f := Filter(Some(rows[chain[k - 1]].id), None, None, Some(parent), None);
      assert Fits(rows[chain[k - 1]], f);
      FirstAtIsFirst(rows, f);
    }
  }

  /** The role-aware head of every entry is the head of the list. */
  lemma ChainHead(rows: seq<RouteRow>, chain: seq<nat>, parent: int, role: string, k: nat)
    requires SiblingChain(rows, chain, parent, role) && k < |chain|
    ensures FirstNodeOfRole(rows, rows[chain[k]]) == Some(chain[0])
  {
    var f := Filter(None, None, Some(role), Some(parent), Some(0));
    assert LinkAt(rows, chain, 0, 0);
    assert Fits(rows[chain[0]], f);
    FirstAtIsFirst(rows, f);
    var x := FirstAt(rows, f).value;
    assert x in chain;
    var q :| 0 <= q < |chain| && chain[q] == x;
    assert LinkAt(rows, chain, 0, q);
  }

  /** Counting from entry `a`, entry `b` is number b - a + 1. */
  lemma ChainSteps(rows: seq<RouteRow>, chain: seq<nat>, parent: int, role: string, a: nat, b: nat, fuel: nat)
    requires SiblingChain(rows, chain, parent, role) && a <= b < |chain| && fuel >= b - a
    ensures StepsFrom(rows, chain[a], rows[chain[b]].id, fuel) == Ok(b - a + 1)
  {
    forall i | a <= i < b
      ensures NextNode(rows, rows[chain[i]]) == Some(chain[i + 1]) && rows[chain[i]].id != rows[chain[b]].id
    {
      ChainNext(rows, chain, parent, role, i);
      assert chain[i] != chain[b];
    }
    StepsAlong(rows, chain, a, b, fuel);
  }

  /** The count from entry `a` reaches `b` when every entry before `b` leads
      to the next one and is not the target. */
  lemma {:induction false} StepsAlong(rows: seq<RouteRow>, chain: seq<nat>, a: nat, b: nat, fuel: nat)
    requires InTable(rows, chain) && a <= b < |chain| && fuel >= b - a
    requires forall i :: a <= i < b ==> NextNode(rows, rows[chain[i]]) == Some(chain[i + 1]) && rows[chain[i]].id != rows[chain[b]].id
    ensures StepsFrom(rows, chain[a], rows[chain[b]].id, fuel) == Ok(b - a + 1)
    decreases b - a
  {
    if a < b {
      StepsAlong(rows, chain, a + 1, b, fuel - 1);
    }
  }

  /** `.all()` of a table with one more row. */
  lemma {:induction false} MatchingSnoc(rows: seq<RouteRow>, x: RouteRow, f: Filter)
    ensures Matching(rows + [x], f) == Matching(rows, f) + (if Fits(x, f) then [x] else [])
  {
    if rows != [] {
      assert (rows + [x])[1..] == rows[1..] + [x];
      MatchingSnoc(rows[1..], x, f);
    } else {
      assert [x][1..] == [];
    }
  }

  /** The positions of the rows that fit. */
  function FitPositions(rows: seq<RouteRow>, f: Filter): set<nat> {
    set j: nat | j < |rows| && Fits(rows[j], f)
  }

  /** `.count()` is the number of rows that fit. */
  lemma {:induction false} CountPositions(rows: seq<RouteRow>, f: Filter)
    ensures Count(rows, f) == |FitPositions(rows, f)|
  {
    if rows != [] {
      var n := |rows| - 1;
      var init := rows[..n];
      CountPositions(init, f);
      assert rows == init + [rows[n]];
      MatchingSnoc(init, rows[n], f);
      assert FitPositions(rows, f) == FitPositions(init, f) + (if Fits(rows[n], f) then {n} else {});
    }
  }

  /** A list without repeats has as many members as entries. */
  lemma {:induction false} DistinctCard(seg: seq<nat>)
    requires Distinct(seg)
    ensures |Members(seg)| == |seg|
  {
    if seg != [] {
      var n := |seg| - 1;
      DistinctCard(seg[..n]);
      assert Members(seg) == Members(seg[..n]) + {seg[n]};
      assert seg[n] !in Members(seg[..n]);
    }
  }

  /** `node_counts` of an entry is the length of its list. */
  lemma ChainCount(rows: seq<RouteRow>, chain: seq<nat>, parent: int, role: string, k: nat)
    requires SiblingChain(rows, chain, parent, role) && k < |chain|
    ensures NodeCounts(rows, rows[chain[k]]) == |chain| <= |rows|
  {
    var f := Filter(None, None, Some(role), Some(parent), None);
    CountPositions(rows, f);
    DistinctCard(chain);
    assert FitPositions(rows, f) == Members(chain) by {
      forall j | j in Members(chain) ensures j in FitPositions(rows, f) {
        var q :| 0 <= q < |chain| && chain[q] == j;
      }
    }
  }

  /** `node_index` of an entry is its 1-based place in its list. */
  lemma ChainIndex(rows: seq<RouteRow>, chain: seq<nat>, parent: int, role: string, k: nat)
    requires SiblingChain(rows, chain, parent, role) && k < |chain|
    ensures NodeIndexOf(rows, chain[k]) == Ok(k + 1)
  {
    ChainHead(rows, chain, parent, role, k);
    ChainCount(rows, chain, parent, role, k);
    ChainSteps(rows, chain, parent, role, 0, k, |rows|);
  }

  /** `.first()` only depends on which rows fit. */
  lemma {:induction false} FirstAtAgree(rows: seq<RouteRow>, other: seq<RouteRow>, f: Filter)
    requires |other| == |rows| && forall j :: 0 <= j < |rows| ==> Fits(other[j], f) == Fits(rows[j], f)
    ensures FirstAt(other, f) == FirstAt(rows, f)
  {
    if rows != [] {
      FirstAtAgree(rows[1..], other[1..], f);
    }
  }
}
