/** Project relations (`apis/resources/project_relation.py`): the mapping
    between a project and its Redmine plan project, and the parent/son tree
    of projects. The tables are passed in as sequences of rows. The tree is
    assumed acyclic; a rank map over the project ids witnesses it (a parent
    ranks below its sons for the climb up, above them for the walk down). */
module ProjectRelation {
  import opened Wrappers

  datatype PluginRow = PluginRow(projectId: int, planProjectId: int)

  datatype Link = Link(parentId: int, sonId: int)

  const Unknown := -1

  /** `get_plan_id`: the plan project of the first row for the project, or -1. */
  function GetPlanId(rows: seq<PluginRow>, projectId: int): (r: int)
    ensures (forall k :: 0 <= k < |rows| ==> rows[k].projectId != projectId) ==> r == Unknown
    ensures forall k :: 0 <= k < |rows| && rows[k].projectId == projectId &&
                        (forall j :: 0 <= j < k ==> rows[j].projectId != projectId) ==>
              r == rows[k].planProjectId
  {
    if rows == [] then Unknown
    else if rows[0].projectId == projectId then rows[0].planProjectId
    else GetPlanId(rows[1..], projectId)
  }

  /** `get_project_id`: the project of the first row for the plan project, or -1. */
  function GetProjectId(rows: seq<PluginRow>, planId: int): (r: int)
    ensures (forall k :: 0 <= k < |rows| ==> rows[k].planProjectId != planId) ==> r == Unknown
    ensures forall k :: 0 <= k < |rows| && rows[k].planProjectId == planId &&
                        (forall j :: 0 <= j < k ==> rows[j].planProjectId != planId) ==>
              r == rows[k].projectId
  {
    if rows == [] then Unknown
    else if rows[0].planProjectId == planId then rows[0].projectId
    else GetProjectId(rows[1..], planId)
  }

  /** Each project and each plan project appears in one row at most. */
  predicate OneToOne(rows: seq<PluginRow>) {
    forall i, j :: 0 <= i < j < |rows| ==>
      rows[i].projectId != rows[j].projectId && rows[i].planProjectId != rows[j].planProjectId
  }

  /** With a one-to-one relation the two lookups are inverse to each other. */
  lemma PlanRoundTrip(rows: seq<PluginRow>, k: nat)
    requires OneToOne(rows) && k < |rows|
    ensures GetPlanId(rows, rows[k].projectId) == rows[k].planProjectId
    ensures GetProjectId(rows, GetPlanId(rows, rows[k].projectId)) == rows[k].projectId
  {
  }

  /** The parent of the first relation row naming the project as a son. */
  function ParentOf(links: seq<Link>, projectId: int): (r: Option<int>)
    ensures r.None? <==> forall k :: 0 <= k < |links| ==> links[k].sonId != projectId
    ensures r.Some? ==> exists k :: 0 <= k < |links| && links[k] == Link(r.value, projectId)
  {
    if links == [] then None
    else if links[0].sonId == projectId then Some(links[0].parentId)
    else
      var r := ParentOf(links[1..], projectId);
      assert r.Some? ==> exists k :: 0 <= k < |links| && links[k] == Link(r.value, projectId) by {
        if r.Some? {
          var k :| 0 <= k < |links[1..]| && links[1..][k] == Link(r.value, projectId);
          assert links[k + 1] == Link(r.value, projectId);
        }
      }
      r
  }

  /** Every parent ranks strictly below its son. */
  predicate DepthRanked(links: seq<Link>, depth: map<int, nat>) {
    forall k :: 0 <= k < |links| ==>
      links[k].parentId in depth && links[k].sonId in depth && depth[links[k].parentId] < depth[links[k].sonId]
  }

  function DepthOf(depth: map<int, nat>, p: int): nat {
    if p in depth then depth[p] else 0
  }

  /** The ancestors of a project, nearest first, as `get_all_fathers_project`
      collects them: each is the parent of the one before, and the last has
      no parent. */
  function Fathers(links: seq<Link>, depth: map<int, nat>, projectId: int): (r: seq<int>)
    requires DepthRanked(links, depth)
    ensures r == [] <==> ParentOf(links, projectId).None?
    ensures r != [] ==> ParentOf(links, projectId) == Some(r[0]) && ParentOf(links, r[|r| - 1]).None?
    ensures forall k :: 0 <= k < |r| - 1 ==> ParentOf(links, r[k]) == Some(r[k + 1])
    ensures forall k :: 0 <= k < |r| ==> r[k] in depth && depth[r[k]] < DepthOf(depth, projectId)
    ensures forall i, j :: 0 <= i < j < |r| ==> depth[r[j]] < depth[r[i]]
    decreases DepthOf(depth, projectId)
  {
    match ParentOf(links, projectId)
    case None => []
    case Some(q) =>
      var rest := Fathers(links, depth, q);
      assert forall k :: 0 < k < |[q] + rest| ==> ([q] + rest)[k] == rest[k - 1];
      [q] + rest
  }

  /** An ancestor list never repeats a project. */
  lemma FathersDistinct(links: seq<Link>, depth: map<int, nat>, projectId: int)
    requires DepthRanked(links, depth)
    ensures var r := Fathers(links, depth, projectId);
      projectId !in r && forall i, j :: 0 <= i < j < |r| ==> r[i] != r[j]
  {
  }

  /** `get_all_fathers_project`: appends the ancestors to the list passed in. */
  method GetAllFathersProject(links: seq<Link>, ghost depth: map<int, nat>, projectId: int, fatherIdList: seq<int>)
    returns (r: seq<int>)
    requires DepthRanked(links, depth)
    ensures r == fatherIdList + Fathers(links, depth, projectId)
    decreases DepthOf(depth, projectId)
  {
    var parent := ParentOf(links, projectId);
    if parent.None? {
      return fatherIdList;
    }
    r := GetAllFathersProject(links, depth, parent.value, fatherIdList + [parent.value]);
  }

  /** The sons of a project, in the order of the relation rows. */
  function Children(links: seq<Link>, projectId: int): (r: seq<int>)
    ensures forall x :: x in r <==> exists k :: 0 <= k < |links| && links[k] == Link(projectId, x)
  {
    if links == [] then []
    else
      var init := Children(links[..|links| - 1], projectId);
      var last := links[|links| - 1];
      assert forall k :: 0 <= k < |links| - 1 ==> links[..|links| - 1][k] == links[k];
      init + (if last.parentId == projectId then [last.sonId] else [])
  }

  /** Every son ranks strictly below its parent. */
  predicate HeightRanked(links: seq<Link>, height: map<int, nat>) {
    forall k :: 0 <= k < |links| ==>
      links[k].parentId in height && links[k].sonId in height && height[links[k].sonId] < height[links[k].parentId]
  }

  predicate AllBelow(cs: seq<int>, height: map<int, nat>, top: nat) {
    forall k :: 0 <= k < |cs| ==> cs[k] in height && height[cs[k]] < top
  }

  lemma ChildrenBelow(links: seq<Link>, height: map<int, nat>, projectId: int)
    requires HeightRanked(links, height)
    ensures AllBelow(Children(links, projectId), height, DepthOf(height, projectId))
  {
    var cs := Children(links, projectId);
    forall k | 0 <= k < |cs| ensures cs[k] in height && height[cs[k]] < DepthOf(height, projectId) {
      assert cs[k] in cs;
      var j :| 0 <= j < |links| && links[j] == Link(projectId, cs[k]);
    }
  }

  /** The descendants `get_all_sons_project` collects: the sons, then the
      descendants of each son in turn. */
  function Sons(links: seq<Link>, height: map<int, nat>, projectId: int): seq<int>
    requires HeightRanked(links, height)
    decreases DepthOf(height, projectId), 1, 0
  {
    ChildrenBelow(links, height, projectId);
    var cs := Children(links, projectId);
    cs + SonsAll(links, height, cs, DepthOf(height, projectId))
  }

  /** The descendants of each project of `cs`, one after the other. */
  function SonsAll(links: seq<Link>, height: map<int, nat>, cs: seq<int>, top: nat): seq<int>
    requires HeightRanked(links, height) && AllBelow(cs, height, top)
    decreases top, 0, |cs|
  {
    if cs == [] then []
    else SonsAll(links, height, cs[..|cs| - 1], top) + Sons(links, height, cs[|cs| - 1])
  }

  /** `get_all_sons_project`: appends the descendants to the list passed in. */
  method GetAllSonsProject(links: seq<Link>, ghost height: map<int, nat>, projectId: int, sonIdList: seq<int>)
    returns (r: seq<int>)
    requires HeightRanked(links, height)
    ensures r == sonIdList + Sons(links, height, projectId)
    decreases DepthOf(height, projectId), 0
  {
    var sonIds := Children(links, projectId);
    ChildrenBelow(links, height, projectId);
    ghost var top := DepthOf(height, projectId);
    r := sonIdList + sonIds;
    for i := 0 to |sonIds|
      invariant r == sonIdList + sonIds + SonsAll(links, height, sonIds[..i], top)
    {
      assert sonIds[..i + 1][..i] == sonIds[..i];
      r := GetAllSonsProject(links, height, sonIds[i], r);
    }
    assert sonIds[..|sonIds|] == sonIds;
  }

  /** Every son of a project in `roots` or in the list is in the list. */
  predicate Closed(links: seq<Link>, roots: seq<int>, r: seq<int>) {
    forall k :: 0 <= k < |links| && (links[k].parentId in roots || links[k].parentId in r) ==> links[k].sonId in r
  }

  lemma {:induction false} SonsClosed(links: seq<Link>, height: map<int, nat>, projectId: int)
    requires HeightRanked(links, height)
    ensures Closed(links, [projectId], Sons(links, height, projectId))
    decreases DepthOf(height, projectId), 1, 0
  {
    ChildrenBelow(links, height, projectId);
    var cs := Children(links, projectId);
    SonsAllClosed(links, height, cs, DepthOf(height, projectId));
  }

  lemma {:induction false} SonsAllClosed(links: seq<Link>, height: map<int, nat>, cs: seq<int>, top: nat)
    requires HeightRanked(links, height) && AllBelow(cs, height, top)
    ensures Closed(links, cs, SonsAll(links, height, cs, top))
    decreases top, 0, |cs|
  {
    if cs != [] {
      var init := cs[..|cs| - 1];
      var c := cs[|cs| - 1];
      SonsAllClosed(links, height, init, top);
      SonsClosed(links, height, c);
      assert forall x :: x in cs ==> x in init || x == c;
    }
  }

  /** `x` is the son in some row whose parent is in `roots` or in `before`. */
  predicate ParentIn(links: seq<Link>, x: int, roots: seq<int>, before: seq<int>) {
    exists k :: 0 <= k < |links| && links[k].sonId == x && (links[k].parentId in roots || links[k].parentId in before)
  }

  /** Each project of the list is the son of a root or of a project listed before it. */
  predicate ParentsFirst(links: seq<Link>, roots: seq<int>, r: seq<int>) {
    forall k :: 0 <= k < |r| ==> ParentIn(links, r[k], roots, r[..k])
  }

  lemma ParentInWider(links: seq<Link>, x: int, roots: seq<int>, before: seq<int>, roots': seq<int>, before': seq<int>)
    requires ParentIn(links, x, roots, before)
    requires forall y :: y in roots ==> y in roots' || y in before'
    requires forall y :: y in before ==> y in roots' || y in before'
    ensures ParentIn(links, x, roots', before')
  {
    var k :| 0 <= k < |links| && links[k].sonId == x && (links[k].parentId in roots || links[k].parentId in before);
  }

  lemma {:induction false} SonsParentsFirst(links: seq<Link>, height: map<int, nat>, projectId: int)
    requires HeightRanked(links, height)
    ensures ParentsFirst(links, [projectId], Sons(links, height, projectId))
    decreases DepthOf(height, projectId), 1, 0
  {
    ChildrenBelow(links, height, projectId);
    var cs := Children(links, projectId);
    var rest := SonsAll(links, height, cs, DepthOf(height, projectId));
    SonsAllParentsFirst(links, height, cs, DepthOf(height, projectId));
    var r := cs + rest;
    forall k | 0 <= k < |r| ensures ParentIn(links, r[k], [projectId], r[..k]) {
      if k < |cs| {
        assert cs[k] in cs;
        var j :| 0 <= j < |links| && links[j] == Link(projectId, cs[k]);
        assert links[j].parentId in [projectId];
      } else {
        var m := k - |cs|;
        assert r[k] == rest[m] && r[..k] == cs + rest[..m];
        ParentInWider(links, rest[m], cs, rest[..m], [projectId], r[..k]);
      }
    }
  }

  lemma {:induction false} SonsAllParentsFirst(links: seq<Link>, height: map<int, nat>, cs: seq<int>, top: nat)
    requires HeightRanked(links, height) && AllBelow(cs, height, top)
    ensures ParentsFirst(links, cs, SonsAll(links, height, cs, top))
    decreases top, 0, |cs|
  {
    if cs != [] {
      var init := cs[..|cs| - 1];
      var c := cs[|cs| - 1];
      var a := SonsAll(links, height, init, top);
      var b := Sons(links, height, c);
      SonsAllParentsFirst(links, height, init, top);
      SonsParentsFirst(links, height, c);
      var r := a + b;
      forall k | 0 <= k < |r| ensures ParentIn(links, r[k], cs, r[..k]) {
        if k < |a| {
          assert r[k] == a[k] && r[..k] == a[..k];
          ParentInWider(links, a[k], init, a[..k], cs, r[..k]);
        } else {
          var m := k - |a|;
          assert r[k] == b[m] && r[..k] == a + b[..m];
          ParentInWider(links, b[m], [c], b[..m], cs, r[..k]);
        }
      }
    }
  }

  /** The descendants are closed under taking sons, so every descendant is
      listed, and each is listed after its parent. */
  lemma SonsMeaning(links: seq<Link>, height: map<int, nat>, projectId: int)
    requires HeightRanked(links, height)
    ensures var r := Sons(links, height, projectId);
      Closed(links, [projectId], r) && ParentsFirst(links, [projectId], r)
  {
    SonsClosed(links, height, projectId);
    SonsParentsFirst(links, height, projectId);
  }

  /** `is_user_in_project`: forced, an administrator, or a member. */
  predicate IsUserInProject(projectId: int, force: bool, userId: int, roleId: int, members: set<(int, int)>) {
    force || roleId == 5 || (projectId, userId) in members
  }

  /** `get_root_project_id`: climb while the caller may see the parent. */
  function RootProjectId(links: seq<Link>, depth: map<int, nat>, projectId: int, force: bool,
                         userId: int, roleId: int, members: set<(int, int)>): int
    requires DepthRanked(links, depth)
    decreases DepthOf(depth, projectId)
  {
    match ParentOf(links, projectId)
    case None => projectId
    case Some(q) =>
      if !IsUserInProject(q, force, userId, roleId, members) then projectId
      else RootProjectId(links, depth, q, force, userId, roleId, members)
  }

  /** How many ancestors, nearest first, the caller may see without a gap. */
  function VisibleRun(fathers: seq<int>, force: bool, userId: int, roleId: int, members: set<(int, int)>): (n: nat)
    ensures n <= |fathers|
    ensures forall k :: 0 <= k < n ==> IsUserInProject(fathers[k], force, userId, roleId, members)
    ensures n < |fathers| ==> !IsUserInProject(fathers[n], force, userId, roleId, members)
  {
    if fathers == [] || !IsUserInProject(fathers[0], force, userId, roleId, members) then 0
    else 1 + VisibleRun(fathers[1..], force, userId, roleId, members)
  }

  /** The root is the project itself followed by its ancestors, cut at the
      first ancestor the caller may not see. */
  lemma {:induction false} RootOnFathers(links: seq<Link>, depth: map<int, nat>, projectId: int, force: bool,
                                         userId: int, roleId: int, members: set<(int, int)>)
    requires DepthRanked(links, depth)
    ensures var f := Fathers(links, depth, projectId);
      RootProjectId(links, depth, projectId, force, userId, roleId, members) ==
        ([projectId] + f)[VisibleRun(f, force, userId, roleId, members)]
    decreases DepthOf(depth, projectId)
  {
    var f := Fathers(links, depth, projectId);
    match ParentOf(links, projectId)
    case None =>
      assert f == [];
    case Some(q) =>
      if IsUserInProject(q, force, userId, roleId, members) {
        RootOnFathers(links, depth, q, force, userId, roleId, members);
        RootStep(links, depth, projectId, q, force, userId, roleId, members);
      } else {
        assert f[0] == q;
      }
  }

  /** One visible parent `q`: the cut list of `projectId` is that of `q`
      shifted by one. */
  lemma RootStep(links: seq<Link>, depth: map<int, nat>, projectId: int, q: int, force: bool,
                 userId: int, roleId: int, members: set<(int, int)>)
    requires DepthRanked(links, depth) && ParentOf(links, projectId) == Some(q)
    requires IsUserInProject(q, force, userId, roleId, members)
    ensures var f := Fathers(links, depth, projectId); var g := Fathers(links, depth, q);
      ([projectId] + f)[VisibleRun(f, force, userId, roleId, members)] ==
        ([q] + g)[VisibleRun(g, force, userId, roleId, members)]
  {
    var f := Fathers(links, depth, projectId);
    var g := Fathers(links, depth, q);
    assert f == [q] + g;
    assert f[0] == q && f[1..] == g;
    var m := VisibleRun(g, force, userId, roleId, members);
    assert VisibleRun(f, force, userId, roleId, members) == 1 + m;
    assert ([projectId] + f)[1 + m] == f[m];
  }

  /** Forced, or as an administrator, the root is the topmost ancestor. */
  lemma RootForced(links: seq<Link>, depth: map<int, nat>, projectId: int, force: bool,
                   userId: int, roleId: int, members: set<(int, int)>)
    requires DepthRanked(links, depth) && (force || roleId == 5)
    ensures var f := Fathers(links, depth, projectId);
      RootProjectId(links, depth, projectId, force, userId, roleId, members) == if f == [] then projectId else f[|f| - 1]
  {
    var f := Fathers(links, depth, projectId);
    RootOnFathers(links, depth, projectId, force, userId, roleId, members);
    VisibleAll(f, force, userId, roleId, members);
    if f != [] {
      assert ([projectId] + f)[|f|] == f[|f| - 1];
    }
  }

  lemma {:induction false} VisibleAll(fathers: seq<int>, force: bool, userId: int, roleId: int, members: set<(int, int)>)
    requires force || roleId == 5
    ensures VisibleRun(fathers, force, userId, roleId, members) == |fathers|
  {
    if fathers != [] {
      VisibleAll(fathers[1..], force, userId, roleId, members);
    }
  }

  /** Without a visible parent the root is the project itself. */
  lemma RootWithoutParent(links: seq<Link>, depth: map<int, nat>, projectId: int, force: bool,
                          userId: int, roleId: int, members: set<(int, int)>)
    requires DepthRanked(links, depth)
    requires ParentOf(links, projectId).None? ||
             !IsUserInProject(ParentOf(links, projectId).value, force, userId, roleId, members)
    ensures RootProjectId(links, depth, projectId, force, userId, roleId, members) == projectId
  {
  }
}
