/** `apis/resources/router/__init__.py`: the plugin list, the UI route tree
    a role sees, moving a route within its sibling list and hiding a
    plugin's routes. The route table is `Model.RouteTable`. */
module Router {
  import opened Wrappers
  import opened Model

  /** `MAX_DEPTH`: how many further siblings `get_ui_route` follows after the first child. */
  const MaxDepth: nat := 50

  const ChildrenKey: string := "children"
  const HiddenKey: string := "hidden"
  const RecursionMessage: string := "maximum recursion depth exceeded"
  const UiRouteOfNone: string := "'NoneType' object has no attribute 'ui_route'"
  const LastNodeOfNone: string := "'NoneType' object has no attribute 'last_node'"
  const PrevNodeOfNone: string := "'NoneType' object has no attribute 'prev_node'"
  const NextNodeOfNone: string := "'NoneType' object has no attribute 'next_node'"

  // ---------------------------------------------------------------------
  // get_plugin_software
  // ---------------------------------------------------------------------

  /** A PluginSoftware row, as the query returns it. */
  datatype Plugin = Plugin(id: int, name: string, disabled: bool)

  /** The names of the disabled plugins. */
  function DisabledNames(plugins: seq<Plugin>): (r: seq<string>)
    ensures forall k :: 0 <= k < |plugins| && plugins[k].disabled ==> plugins[k].name in r
    ensures forall n :: n in r ==> exists k :: 0 <= k < |plugins| && plugins[k].disabled && plugins[k].name == n
  {
    if plugins == [] then []
    else
      var rest := DisabledNames(plugins[1..]);
      assert forall k :: 1 <= k < |plugins| ==> plugins[k] == plugins[1..][k - 1];
      if plugins[0].disabled then [plugins[0].name] + rest else rest
  }

  /** The plugins whose name is not in `names`, in table order. */
  function WithoutNames(plugins: seq<Plugin>, names: seq<string>): (r: seq<Plugin>)
    ensures |r| <= |plugins|
    ensures forall p :: p in r <==> p in plugins && p.name !in names
  {
    if plugins == [] then []
    else (if plugins[0].name in names then [] else [plugins[0]]) + WithoutNames(plugins[1..], names)
  }

  /** `get_plugin_software`: every plugin, or with `simple` only those
      whose name no disabled plugin carries. */
  function GetPluginSoftware(plugins: seq<Plugin>, simple: bool): (r: seq<Plugin>)
    ensures !simple ==> r == plugins
    ensures simple ==> forall p :: p in r <==> p in plugins && p.name !in DisabledNames(plugins)
  {
    if simple then WithoutNames(plugins, DisabledNames(plugins)) else plugins
  }

  /** The simple list holds no disabled plugin, and keeps every enabled
      plugin whose name is not shared with a disabled one. */
  lemma SimpleOmitsDisabled(plugins: seq<Plugin>)
    ensures forall p :: p in GetPluginSoftware(plugins, true) ==> !p.disabled
    ensures forall k :: 0 <= k < |plugins| && (forall j :: 0 <= j < |plugins| && plugins[j].disabled ==> plugins[j].name != plugins[k].name) ==>
      plugins[k] in GetPluginSoftware(plugins, true)
  {
    forall p | p in GetPluginSoftware(plugins, true) ensures !p.disabled {
      var k :| 0 <= k < |plugins| && plugins[k] == p;
    }
    forall k | 0 <= k < |plugins| && (forall j :: 0 <= j < |plugins| && plugins[j].disabled ==> plugins[j].name != plugins[k].name)
      ensures plugins[k] in GetPluginSoftware(plugins, true)
    {
    }
  }

  // ---------------------------------------------------------------------
  // get_ui_route
  // ---------------------------------------------------------------------

  /** The first child of row `i` that heads its sibling list:
      `children_nodes[0].first_node`, with the role-aware first node. */
  function FirstChild(rows: seq<RouteRow>, i: nat): (r: Option<nat>)
    requires i < |rows| && |ChildrenNodes(rows, rows[i])| > 0
    ensures r.Some? ==> r.value < |rows| && rows[r.value].parent == rows[i].id && rows[r.value].oldBrother == 0
  {
    var c := ChildrenNodes(rows, rows[i])[0];
    FirstNodeOfRole(rows, c)
  }

  /** Row `c` and the siblings after it, along `next_node`, at most
      `budget` of them. */
  function Siblings(rows: seq<RouteRow>, c: nat, budget: nat): (r: seq<nat>)
    requires c < |rows|
    ensures 1 <= |r| <= budget + 1 && r[0] == c
    ensures forall k :: 0 <= k < |r| ==> r[k] < |rows|
    ensures forall j, k :: 0 <= j && k == j + 1 && k < |r| ==> NextNode(rows, rows[r[j]]) == Some(r[k])
    decreases budget
  {
    match NextNode(rows, rows[c])
    case None => [c]
    case Some(n) => if budget == 0 then [c] else [c] + Siblings(rows, n, budget - 1)
  }

  /** A sibling list shorter than the budget ends at a row without a next node. */
  lemma {:induction false} SiblingsEnd(rows: seq<RouteRow>, c: nat, budget: nat)
    requires c < |rows|
    ensures var r := Siblings(rows, c, budget); |r| <= budget ==> NextNode(rows, rows[r[|r| - 1]]).None?
    decreases budget
  {
    match NextNode(rows, rows[c])
    case None =>
    case Some(n) =>
      if budget > 0 {
        SiblingsEnd(rows, n, budget - 1);
        var s := Siblings(rows, n, budget - 1);
        assert Siblings(rows, c, budget)[|s|] == s[|s| - 1];
      }
  }

  /** A sibling list within its budget goes on while its rows have a next node. */
  lemma SiblingsGoOn(rows: seq<RouteRow>, c: nat, budget: nat, n: nat)
    requires c < |rows| && 1 <= n <= budget && n <= |Siblings(rows, c, budget)|
    requires NextNode(rows, rows[Siblings(rows, c, budget)[n - 1]]).Some?
    ensures n < |Siblings(rows, c, budget)|
  {
    SiblingsEnd(rows, c, budget);
  }

  function Prepend<T>(x: T, r: Result<seq<T>>): Result<seq<T>> {
    if r.Ok? then Ok([x] + r.value) else r
  }

  function Joined<T>(xs: seq<T>, r: Result<seq<T>>): Result<seq<T>> {
    if r.Ok? then Ok(xs + r.value) else r
  }

  lemma JoinedPrepend<T>(xs: seq<T>, x: T, r: Result<seq<T>>)
    ensures Joined(xs, Prepend(x, r)) == Joined(xs + [x], r)
  {
    if r.Ok? {
      assert xs + ([x] + r.value) == (xs + [x]) + r.value;
    }
  }

  /** The route of row `i` with its children nested under "children";
      `fuel` bounds the recursion, as Python's own recursion limit does. */
  function RouteTree(rows: seq<RouteRow>, i: nat, fuel: nat): Result<Json>
    requires i < |rows|
    decreases fuel, 0, 0
  {
    if fuel == 0 || |ChildrenNodes(rows, rows[i])| == 0 then Leaf(rows[i], fuel)
    else WithChildren(rows[i].uiRoute, ChildTrees(rows, i, fuel - 1))
  }

  /** The route of a row without children, or the recursion error. */
  function Leaf(row: RouteRow, fuel: nat): Result<Json> {
    if fuel == 0 then Err(Crash(RecursionMessage)) else Ok(JObj(row.uiRoute))
  }

  /** The routes of the children of row `i`: those of its first child's
      sibling list. */
  function ChildTrees(rows: seq<RouteRow>, i: nat, fuel: nat): Result<seq<Json>>
    requires i < |rows| && |ChildrenNodes(rows, rows[i])| > 0
    decreases fuel, 2, 0
  {
    match FirstChild(rows, i)
    case None => Err(Crash(UiRouteOfNone))
    case Some(c) => Trees(rows, Siblings(rows, c, MaxDepth), fuel)
  }

  /** The route with its child routes under "children", or their error. */
  function WithChildren(route: map<string, Json>, children: Result<seq<Json>>): Result<Json> {
    match children
    case Err(e) => Err(e)
    case Ok(cs) => Ok(JObj(route[ChildrenKey := JList(cs)]))
  }

  /** The routes of the rows `idxs`, in order, or the first error. */
  function Trees(rows: seq<RouteRow>, idxs: seq<nat>, fuel: nat): (r: Result<seq<Json>>)
    requires forall k :: 0 <= k < |idxs| ==> idxs[k] < |rows|
    ensures r.Ok? ==> |r.value| == |idxs|
    decreases fuel, 1, |idxs|
  {
    if idxs == [] then Ok([])
    else match RouteTree(rows, idxs[0], fuel)
      case Err(e) => Err(e)
      case Ok(j) =>
        var rest := Trees(rows, idxs[1..], fuel);
        assert forall k :: 1 <= k < |idxs| ==> idxs[k] == idxs[1..][k - 1];
        Prepend(j, rest)
  }

  /** `Trees` holds the route of each of its rows, in order. */
  lemma {:induction false} TreesAt(rows: seq<RouteRow>, idxs: seq<nat>, fuel: nat)
    requires forall k :: 0 <= k < |idxs| ==> idxs[k] < |rows|
    ensures var r := Trees(rows, idxs, fuel);
      r.Ok? ==> forall k :: 0 <= k < |idxs| ==> RouteTree(rows, idxs[k], fuel) == Ok(r.value[k])
    decreases |idxs|
  {
    if idxs != [] {
      var rest := idxs[1..];
      TreesAt(rows, rest, fuel);
      assert forall k :: 1 <= k < |idxs| ==> idxs[k] == rest[k - 1];
    }
  }

  /** `Trees` fails only with the error of one of its rows. */
  lemma {:induction false} TreesErr(rows: seq<RouteRow>, idxs: seq<nat>, fuel: nat)
    requires forall k :: 0 <= k < |idxs| ==> idxs[k] < |rows|
    ensures var r := Trees(rows, idxs, fuel);
      r.Err? ==> exists k :: 0 <= k < |idxs| && RouteTree(rows, idxs[k], fuel) == Err(r.error)
    decreases |idxs|
  {
    var r := Trees(rows, idxs, fuel);
    if idxs != [] && r.Err? && RouteTree(rows, idxs[0], fuel).Ok? {
      var rest := idxs[1..];
      TreesErr(rows, rest, fuel);
      var k :| 0 <= k < |rest| && RouteTree(rows, rest[k], fuel) == Err(r.error);
      assert idxs[k + 1] == rest[k];
    }
  }

  /** One step of `Trees` along a list of rows. */
  lemma TreesStep(rows: seq<RouteRow>, s: seq<nat>, n: nat, fuel: nat)
    requires n < |s| && forall k :: 0 <= k < |s| ==> s[k] < |rows|
    ensures Trees(rows, s[n..], fuel) ==
      match RouteTree(rows, s[n], fuel)
      case Err(e) => Err(e)
      case Ok(j) => Prepend(j, Trees(rows, s[n + 1..], fuel))
  {
    assert s[n..][1..] == s[n + 1..];
  }

  /** `get_ui_route`, on the routes of the table `t`. The route dict it
      extends in place is returned as a new value. */
  method GetUiRoute(t: RouteTable, i: nat, fuel: nat) returns (r: Result<Json>)
    requires i < |t.rows|
    ensures r == RouteTree(t.rows, i, fuel)
    decreases fuel, 0
  {
    var rows := t.rows;
    if fuel == 0 || |ChildrenNodes(rows, rows[i])| == 0 {
      r := if fuel == 0 then Err(Crash(RecursionMessage)) else Ok(JObj(rows[i].uiRoute));
    } else {
      var childRoutes := ChildRoutes(t, i, fuel - 1);
      r := WithChildren(rows[i].uiRoute, childRoutes);
      assert r == RouteTree(rows, i, fuel);
    }
  }

  /** The children part of `get_ui_route`: from the first child of row
      `i` along its sibling list. */
  method ChildRoutes(t: RouteTable, i: nat, fuel: nat) returns (r: Result<seq<Json>>)
    requires i < |t.rows| && |ChildrenNodes(t.rows, t.rows[i])| > 0
    ensures r == ChildTrees(t.rows, i, fuel)
    decreases fuel, 2
  {
    var first := FirstChild(t.rows, i);
    if first.None? {
      return Err(Crash(UiRouteOfNone));
    }
    var last;
    r, last := SiblingRoutes(t, first.value, MaxDepth, fuel);
  }

  /** `done` are the routes of the first `|done|` rows of `s`, as far as
      `Trees` over all of `s` is concerned. */
  ghost predicate Built(rows: seq<RouteRow>, s: seq<nat>, done: seq<Json>, fuel: nat) {
    |done| <= |s| && (forall k :: 0 <= k < |s| ==> s[k] < |rows|) &&
    Joined(done, Trees(rows, s[|done|..], fuel)) == Trees(rows, s, fuel)
  }

  /** Nothing built yet: the routes still to come are all of them. */
  lemma TreesBegin(rows: seq<RouteRow>, s: seq<nat>, fuel: nat)
    requires forall k :: 0 <= k < |s| ==> s[k] < |rows|
    ensures Built(rows, s, [], fuel)
  {
    assert s[0..] == s;
    if Trees(rows, s, fuel).Ok? {
      assert [] + Trees(rows, s, fuel).value == Trees(rows, s, fuel).value;
    }
  }

  /** The route of `s[|done|]` fails: so does the whole list. */
  lemma TreesStop(rows: seq<RouteRow>, s: seq<nat>, done: seq<Json>, fuel: nat, e: Error)
    requires Built(rows, s, done, fuel) && |done| < |s|
    requires RouteTree(rows, s[|done|], fuel) == Err(e)
    ensures Trees(rows, s, fuel) == Err(e)
  {
    TreesStep(rows, s, |done|, fuel);
  }

  /** The route of `s[|done|]` is built: it joins those already built. */
  lemma TreesGoOn(rows: seq<RouteRow>, s: seq<nat>, done: seq<Json>, fuel: nat, j: Json)
    requires Built(rows, s, done, fuel) && |done| < |s|
    requires RouteTree(rows, s[|done|], fuel) == Ok(j)
    ensures Built(rows, s, done + [j], fuel)
  {
    TreesStep(rows, s, |done|, fuel);
    JoinedPrepend(done, j, Trees(rows, s[|done| + 1..], fuel));
  }

  /** Every route of the list is built. */
  lemma TreesDone(rows: seq<RouteRow>, s: seq<nat>, done: seq<Json>, fuel: nat)
    requires Built(rows, s, done, fuel) && |done| == |s|
    ensures Trees(rows, s, fuel) == Ok(done)
  {
    assert s[|done|..] == [] && done + [] == done;
  }

  /** The loop over `next_node` that `get_ui_route` and
      `display_by_permission` share: the routes of `first` and of at most
      `budget` siblings after it, and the last row visited. */
  method SiblingRoutes(t: RouteTable, first: nat, budget: nat, fuel: nat) returns (r: Result<seq<Json>>, last: nat)
    requires first < |t.rows|
    ensures var s := Siblings(t.rows, first, budget); r == Trees(t.rows, s, fuel) && (r.Ok? ==> last == s[|s| - 1])
    decreases fuel, 1
  {
    var rows := t.rows;
    ghost var sibs := Siblings(rows, first, budget);
    var child: nat := first;
    TreesBegin(rows, sibs, fuel);
    var route := GetUiRoute(t, child, fuel);
    if route.Err? {
      TreesStop(rows, sibs, [], fuel, route.error);
      return Err(route.error), child;
    }
    TreesGoOn(rows, sibs, [], fuel, route.value);
    var routes := [route.value];
    var depth: nat := 0;
    while NextNode(rows, rows[child]).Some?
      invariant 1 <= |routes| <= |sibs| && depth == |routes| - 1
      invariant child == sibs[|routes| - 1]
      invariant Built(rows, sibs, routes, fuel)
      decreases budget - depth
    {
      depth := depth + 1;
      if depth > budget {
        break;
      }
      var n := |routes|;
      SiblingsGoOn(rows, first, budget, n);
      child := NextNode(rows, rows[child]).value;
      route := GetUiRoute(t, child, fuel);
      if route.Err? {
        TreesStop(rows, sibs, routes, fuel, route.error);
        return Err(route.error), child;
      }
      TreesGoOn(rows, sibs, routes, fuel, route.value);
      routes := routes + [route.value];
    }
    TreesDone(rows, sibs, routes, fuel);
    return Ok(routes), child;
  }

  // ---------------------------------------------------------------------
  // display_by_permission
  // ---------------------------------------------------------------------

  /** The head of the top-level list of `role`. */
  function TopHead(rows: seq<RouteRow>, role: string): Option<nat> {
    FirstAt(rows, Filter(None, None, Some(role), Some(0), Some(0)))
  }

  /** The route shown on errors: the one with the empty role. */
  function ErrorRoute(rows: seq<RouteRow>): Result<Json> {
    match FirstAt(rows, Filter(None, None, Some(""), None, None))
    case None => Err(Crash(UiRouteOfNone))
    case Some(e) => Ok(JObj(rows[e].uiRoute))
  }

  /** What `display_by_permission` returns for `role`: the trees of the
      top-level list, then the error route. A list longer than the table
      can only go round a cycle, where the source would loop forever. */
  function DisplayRoutes(rows: seq<RouteRow>, role: string): (r: Result<seq<Json>>)
    ensures r.Ok? ==> TopHead(rows, role).Some? && |r.value| >= 2 && Ok(r.value[|r.value| - 1]) == ErrorRoute(rows)
  {
    match TopHead(rows, role)
    case None => Err(Crash(UiRouteOfNone))
    case Some(h) =>
      var sibs := Siblings(rows, h, |rows|);
      match Trees(rows, sibs, |rows|)
      case Err(e) => Err(e)
      case Ok(routes) =>
        if |sibs| > |rows| && NextNode(rows, rows[sibs[|sibs| - 1]]).Some? then Err(Crash(LoopMessage))
        else match ErrorRoute(rows)
          case Err(e) => Err(e)
          case Ok(er) => Ok(routes + [er])
  }

  /** Every route but the last is the tree of the next row of the
      role's top-level list, from its head to its end, in order. */
  lemma DisplayRoutesOrder(rows: seq<RouteRow>, role: string)
    ensures var r := DisplayRoutes(rows, role); r.Ok? ==>
      var s := Siblings(rows, TopHead(rows, role).value, |rows|);
      |r.value| == |s| + 1 && NextNode(rows, rows[s[|s| - 1]]).None? &&
      forall k :: 0 <= k < |s| ==> RouteTree(rows, s[k], |rows|) == Ok(r.value[k])
  {
    var r := DisplayRoutes(rows, role);
    if r.Ok? {
      var s := Siblings(rows, TopHead(rows, role).value, |rows|);
      var routes := Trees(rows, s, |rows|);
      assert r == Ok(routes.value + [ErrorRoute(rows).value]);
      TreesAt(rows, s, |rows|);
      SiblingsEnd(rows, TopHead(rows, role).value, |rows|);
    }
  }

  /** `display_by_permission` for the role of the signed-in user. */
  method DisplayByPermission(t: RouteTable, role: string) returns (r: Result<seq<Json>>)
    ensures r == DisplayRoutes(t.rows, role)
  {
    var rows := t.rows;
    var head := TopHead(rows, role);
    if head.None? {
      return Err(Crash(UiRouteOfNone));
    }
    var routeList, last := SiblingRoutes(t, head.value, |rows|, |rows|);
    if routeList.Err? {
      return Err(routeList.error);
    }
    if NextNode(rows, rows[last]).Some? {
      SiblingsEnd(rows, head.value, |rows|);
      return Err(Crash(LoopMessage));
    }
    var errorRoute := ErrorRoute(rows);
    if errorRoute.Err? {
      return Err(errorRoute.error);
    }
    return Ok(routeList.value + [errorRoute.value]);
  }

  // ---------------------------------------------------------------------
  // move_node
  // ---------------------------------------------------------------------

  /** The rows after a call, and how it ended. */
  datatype Effect = Effect(rows: seq<RouteRow>, outcome: Outcome)

  /** Step 1 of `move_node`: the node's next sibling takes over its prev_node. */
  function Detached(rows: seq<RouteRow>, o: nat): (r: seq<RouteRow>)
    requires o < |rows|
    ensures |r| == |rows|
  {
    var next := NextNode(rows, rows[o]);
    if next.Some? then WithPrev(rows, next.value, PrevNode(rows, rows[o])) else rows
  }

  /** `move_node(original, move_to)`: the node is taken out of its list and
      put in front of `moveTo`, or after the last node of the list when
      `moveTo` is None. */
  function Moved(rows: seq<RouteRow>, o: nat, moveTo: Option<nat>): (s: Effect)
    requires o < |rows| && (moveTo.Some? ==> moveTo.value < |rows|)
    ensures |s.rows| == |rows|
  {
    var next := NextNode(rows, rows[o]);
    var rows1 := Detached(rows, o);
    if moveTo.Some? then
      var m := moveTo.value;
      var rows2 := WithPrev(rows1, o, PrevNode(rows1, rows1[m]));
      Effect(WithPrev(rows2, m, Some(o)), Pass)
    else if next.None? then Effect(rows1, Fail(Crash(LastNodeOfNone)))
    else match LastFrom(rows1, next.value, |rows1|)
      case Err(e) => Effect(rows1, Fail(e))
      case Ok(l) => Effect(WithPrev(rows1, o, Some(l)), Pass)
  }

  /** Setting one prev_node touches that row's old_brother only. */
  lemma WithPrevTouches(rows: seq<RouteRow>, i: nat, p: Option<nat>)
    requires i < |rows| && (p.Some? ==> p.value < |rows|)
    ensures forall k :: 0 <= k < |rows| ==> WithPrev(rows, i, p)[k] == rows[k].(oldBrother := WithPrev(rows, i, p)[k].oldBrother)
    ensures forall k :: 0 <= k < |rows| && k != i ==> WithPrev(rows, i, p)[k] == rows[k]
  {
  }

  /** Moving touches nothing but old_brother, and only that of the node,
      of its old next sibling and of the target. */
  lemma MovedOnlyRelinks(rows: seq<RouteRow>, o: nat, moveTo: Option<nat>)
    requires o < |rows| && (moveTo.Some? ==> moveTo.value < |rows|)
    ensures var s := Moved(rows, o, moveTo);
      forall k :: 0 <= k < |rows| ==> s.rows[k] == rows[k].(oldBrother := s.rows[k].oldBrother)
    ensures var s := Moved(rows, o, moveTo);
      forall k :: 0 <= k < |rows| && k != o && Some(k) != NextNode(rows, rows[o]) && Some(k) != moveTo ==> s.rows[k] == rows[k]
  {
    var next := NextNode(rows, rows[o]);
    var rows1 := Detached(rows, o);
    if next.Some? {
      WithPrevTouches(rows, next.value, PrevNode(rows, rows[o]));
    }
    if moveTo.Some? {
      var m := moveTo.value;
      var rows2 := WithPrev(rows1, o, PrevNode(rows1, rows1[m]));
      WithPrevTouches(rows1, o, PrevNode(rows1, rows1[m]));
      WithPrevTouches(rows2, m, Some(o));
    } else if next.Some? {
      match LastFrom(rows1, next.value, |rows1|)
      case Err(e) =>
      case Ok(l) => WithPrevTouches(rows1, o, Some(l));
    }
  }

  /** The old next sibling now follows the node's old predecessor. */
  lemma MovedDetaches(rows: seq<RouteRow>, o: nat, moveTo: Option<nat>)
    requires o < |rows| && (moveTo.Some? ==> moveTo.value < |rows|)
    requires NextNode(rows, rows[o]).Some?
    requires var x := NextNode(rows, rows[o]).value; x != o && moveTo != Some(x)
    ensures var s := Moved(rows, o, moveTo); var x := NextNode(rows, rows[o]).value; var p := PrevNode(rows, rows[o]);
      s.rows[x].oldBrother == if p.Some? then rows[p.value].id else 0
  {
  }

  /** With a target: the node takes over the target's predecessor (as it
      is once the node is out of the list), and the target now follows
      the node. */
  lemma MovedBeforeTarget(rows: seq<RouteRow>, o: nat, m: nat)
    requires o < |rows| && m < |rows| && m != o && rows[m].parent == rows[o].parent && UniqueIds(rows)
    ensures var s := Moved(rows, o, Some(m)); var rows1 := Detached(rows, o); var p := PrevNode(rows1, rows1[m]);
      s.outcome == Pass &&
      s.rows[o].oldBrother == (if p.Some? then rows[p.value].id else 0) &&
      PrevNode(s.rows, s.rows[m]) == Some(o)
  {
    var rows1 := Detached(rows, o);
    var rows2 := WithPrev(rows1, o, PrevNode(rows1, rows1[m]));
    assert forall k :: 0 <= k < |rows| ==> rows2[k].id == rows[k].id && rows2[k].parent == rows[k].parent;
    PrevAfterSet(rows2, m, Some(o));
  }

  /** Without a target: the node follows the last node of the list its
      old next sibling is in. */
  lemma MovedToEnd(rows: seq<RouteRow>, o: nat)
    requires o < |rows| && NextNode(rows, rows[o]).Some?
    ensures var s := Moved(rows, o, None); var rows1 := Detached(rows, o);
      var last := LastFrom(rows1, NextNode(rows, rows[o]).value, |rows|);
      (last.Ok? ==> s.outcome == Pass && s.rows[o].oldBrother == rows[last.value].id) &&
      (last.Err? ==> s.outcome == Fail(last.error))
  {
  }

  /** `move_node`, on the table `t`. */
  method MoveNode(t: RouteTable, o: nat, moveTo: Option<nat>) returns (r: Outcome)
    requires o < |t.rows| && (moveTo.Some? ==> moveTo.value < |t.rows|)
    modifies t
    ensures t.rows == Moved(old(t.rows), o, moveTo).rows && r == Moved(old(t.rows), o, moveTo).outcome
  {
    var prev := PrevNode(t.rows, t.rows[o]);
    var next := NextNode(t.rows, t.rows[o]);
    if next.Some? {
      t.SetPrevNode(next.value, prev);
    }
    if moveTo.Some? {
      var p := PrevNode(t.rows, t.rows[moveTo.value]);
      t.SetPrevNode(o, p);
      t.SetPrevNode(moveTo.value, Some(o));
      r := Pass;
    } else if next.None? {
      r := Fail(Crash(LastNodeOfNone));
    } else {
      var last := t.LastNode(next.value);
      if last.Err? {
        r := Fail(last.error);
      } else {
        t.SetPrevNode(o, Some(last.value));
        r := Pass;
      }
    }
  }

  // ---------------------------------------------------------------------
  // Moving within a sibling list
  // ---------------------------------------------------------------------

  /** The list with entry `c` taken out and put back at place `t`, counting from 0. */
  function MovedTo(chain: seq<nat>, c: nat, t: nat): seq<nat>
    requires c < |chain| && t < |chain|
  {
    var rest := chain[..c] + chain[c + 1..];
    rest[..t] + [chain[c]] + rest[t..]
  }

  /** Where entry k of the moved list comes from. */
  function MovedFrom(c: nat, t: nat, k: nat): nat {
    if k == t then c
    else var i := if k < t then k else k - 1; if i < c then i else i + 1
  }

  /** Entry by entry: before place t the list without the moved entry, at
      place t the moved entry, after it the rest. */
  lemma MovedToAt(chain: seq<nat>, c: nat, t: nat)
    requires c < |chain| && t < |chain|
    ensures |MovedTo(chain, c, t)| == |chain|
    ensures forall k :: 0 <= k < |chain| ==> MovedFrom(c, t, k) < |chain| && MovedTo(chain, c, t)[k] == chain[MovedFrom(c, t, k)]
  {
  }

  /** The moved list holds the same entries, the moved one at place t, and
      the others in their old order. */
  lemma MovedToMeaning(chain: seq<nat>, c: nat, t: nat)
    requires c < |chain| && t < |chain|
    ensures var r := MovedTo(chain, c, t);
      |r| == |chain| && r[t] == chain[c] && multiset(r) == multiset(chain) &&
      r[..t] + r[t + 1..] == chain[..c] + chain[c + 1..]
  {
    var rest := chain[..c] + chain[c + 1..];
    var r := MovedTo(chain, c, t);
    assert rest == rest[..t] + rest[t..];
    assert chain == chain[..c] + [chain[c]] + chain[c + 1..];
    assert r[..t] == rest[..t] && r[t + 1..] == rest[t..];
    calc {
      multiset(r);
      multiset(rest[..t]) + multiset{chain[c]} + multiset(rest[t..]);
      multiset(rest) + multiset{chain[c]};
      multiset(chain[..c]) + multiset(chain[c + 1..]) + multiset{chain[c]};
      multiset(chain);
    }
  }

  /** Moving an entry to its own place changes nothing. */
  lemma MovedToSelf(chain: seq<nat>, c: nat)
    requires c < |chain|
    ensures MovedTo(chain, c, c) == chain
  {
    MovedToAt(chain, c, c);
  }

  /** `prev_node` and `next_node` only read ids, parents and old brothers. */
  lemma NavigationAgree(rows: seq<RouteRow>, other: seq<RouteRow>, n: RouteRow, m: RouteRow)
    requires |other| == |rows| && forall j :: 0 <= j < |rows| ==> other[j].id == rows[j].id && other[j].parent == rows[j].parent
    requires m.id == n.id && m.parent == n.parent && m.oldBrother == n.oldBrother
    ensures PrevNode(other, m) == PrevNode(rows, n)
  {
    if n.oldBrother != 0 {
      FirstAtAgree(rows, other, Filter(Some(n.oldBrother), None, None, Some(n.parent), None));
    }
  }

  /** Taking entry `c` out of its list: its successor now names its predecessor. */
  lemma DetachedChain(rows: seq<RouteRow>, chain: seq<nat>, parent: int, role: string, c: nat)
    requires SiblingChain(rows, chain, parent, role) && c < |chain|
    ensures var rows1 := Detached(rows, chain[c]);
      |rows1| == |rows| &&
      (forall j :: 0 <= j < |rows| ==> rows1[j] == rows[j].(oldBrother := rows1[j].oldBrother)) &&
      (forall j :: 0 <= j < |rows| && (c + 1 < |chain| ==> j != chain[c + 1]) ==> rows1[j] == rows[j]) &&
      (c + 1 < |chain| ==> rows1[chain[c + 1]].oldBrother == if c == 0 then 0 else rows[chain[c - 1]].id)
  {
    ChainNext(rows, chain, parent, role, c);
    ChainPrev(rows, chain, parent, role, c);
  }

  /** Moving entry `c` up to place `t`: it takes over the old brother of
      entry t, entry t names it, and its old successor names its old
      predecessor; nothing else changes. */
  lemma MovedUpRows(rows: seq<RouteRow>, chain: seq<nat>, parent: int, role: string, c: nat, t: nat)
    requires SiblingChain(rows, chain, parent, role) && t < c < |chain|
    ensures var s := Moved(rows, chain[c], Some(chain[t]));
      s.outcome == Pass &&
      (forall j :: 0 <= j < |rows| ==> s.rows[j] == rows[j].(oldBrother := s.rows[j].oldBrother)) &&
      s.rows[chain[c]].oldBrother == (if t == 0 then 0 else rows[chain[t - 1]].id) &&
      s.rows[chain[t]].oldBrother == rows[chain[c]].id &&
      (c + 1 < |chain| ==> s.rows[chain[c + 1]].oldBrother == rows[chain[c - 1]].id) &&
      (forall j :: 0 <= j < |rows| && j != chain[c] && j != chain[t] && (c + 1 < |chain| ==> j != chain[c + 1]) ==> s.rows[j] == rows[j])
  {
    var o := chain[c];
    var m := chain[t];
    assert o != m;
    assert c + 1 < |chain| ==> chain[c + 1] != m;
    var rows1 := Detached(rows, o);
    DetachedPrevOf(rows, chain, parent, role, c, t);
    DetachedChain(rows, chain, parent, role, c);
    var p := PrevNode(rows1, rows1[m]);
    var rows2 := WithPrev(rows1, o, p);
    WithPrevTouches(rows1, o, p);
    WithPrevTouches(rows2, m, Some(o));
    assert t > 0 ==> rows1[chain[t - 1]].id == rows[chain[t - 1]].id;
    assert rows2[o].oldBrother == (if t == 0 then 0 else rows[chain[t - 1]].id);
  }

  /** Once entry `c` is taken out, `prev_node` of an entry other than its
      old successor is unchanged. */
  lemma DetachedPrevOf(rows: seq<RouteRow>, chain: seq<nat>, parent: int, role: string, c: nat, k: nat)
    requires SiblingChain(rows, chain, parent, role) && c < |chain| && k < |chain| && k != c && k != c + 1
    ensures PrevNode(Detached(rows, chain[c]), Detached(rows, chain[c])[chain[k]]) == if k == 0 then None else Some(chain[k - 1])
  {
    var rows1 := Detached(rows, chain[c]);
    DetachedChain(rows, chain, parent, role, c);
    ChainPrev(rows, chain, parent, role, k);
    NavigationAgree(rows, rows1, rows[chain[k]], rows1[chain[k]]);
  }

  /** Moving entry `c` down to place `t` before the last: its old successor
      names its old predecessor, it names entry t, and entry t + 1 names it;
      nothing else changes. */
  lemma MovedDownRows(rows: seq<RouteRow>, chain: seq<nat>, parent: int, role: string, c: nat, t: nat)
    requires SiblingChain(rows, chain, parent, role) && c < t && t + 1 < |chain|
    ensures var s := Moved(rows, chain[c], Some(chain[t + 1]));
      s.outcome == Pass &&
      (forall j :: 0 <= j < |rows| ==> s.rows[j] == rows[j].(oldBrother := s.rows[j].oldBrother)) &&
      s.rows[chain[c]].oldBrother == rows[chain[t]].id &&
      s.rows[chain[c + 1]].oldBrother == (if c == 0 then 0 else rows[chain[c - 1]].id) &&
      s.rows[chain[t + 1]].oldBrother == rows[chain[c]].id &&
      (forall j :: 0 <= j < |rows| && j != chain[c] && j != chain[c + 1] && j != chain[t + 1] ==> s.rows[j] == rows[j])
  {
    var o := chain[c];
    var m := chain[t + 1];
    DetachedPrevOf(rows, chain, parent, role, c, t + 1);
    var rows1 := Detached(rows, o);
    assert Moved(rows, o, Some(m)) == Effect(WithPrev(WithPrev(rows1, o, Some(chain[t])), m, Some(o)), Pass);
    DownRowsOf(rows, chain, parent, role, c, t, WithPrev(WithPrev(rows1, o, Some(chain[t])), m, Some(o)));
  }

  /** The old brothers that moving entry `c` down before entry t + 1 writes. */
  lemma DownRowsOf(rows: seq<RouteRow>, chain: seq<nat>, parent: int, role: string, c: nat, t: nat, other: seq<RouteRow>)
    requires SiblingChain(rows, chain, parent, role) && c < t && t + 1 < |chain|
    requires other == WithPrev(WithPrev(Detached(rows, chain[c]), chain[c], Some(chain[t])), chain[t + 1], Some(chain[c]))
    ensures |other| == |rows|
    ensures forall j :: 0 <= j < |rows| ==> other[j] == rows[j].(oldBrother := other[j].oldBrother)
    ensures other[chain[c]].oldBrother == rows[chain[t]].id
    ensures other[chain[c + 1]].oldBrother == (if c == 0 then 0 else rows[chain[c - 1]].id)
    ensures other[chain[t + 1]].oldBrother == rows[chain[c]].id
    ensures forall j :: 0 <= j < |rows| && j != chain[c] && j != chain[c + 1] && j != chain[t + 1] ==> other[j] == rows[j]
  {
    var o := chain[c];
    var m := chain[t + 1];
    assert m != o && m != chain[c + 1];
    var rows1 := Detached(rows, o);
    DetachedChain(rows, chain, parent, role, c);
    var rows2 := WithPrev(rows1, o, Some(chain[t]));
    WithPrevTouches(rows1, o, Some(chain[t]));
    WithPrevTouches(rows2, m, Some(o));
    assert rows1[chain[t]].id == rows[chain[t]].id;
  }

  /** Moving entry `c` to the end: its old successor names its old
      predecessor and it names the old last entry; nothing else changes. */
  lemma MovedToEndRows(rows: seq<RouteRow>, chain: seq<nat>, parent: int, role: string, c: nat)
    requires SiblingChain(rows, chain, parent, role) && c + 1 < |chain|
    ensures var s := Moved(rows, chain[c], None);
      s.outcome == Pass &&
      (forall j :: 0 <= j < |rows| ==> s.rows[j] == rows[j].(oldBrother := s.rows[j].oldBrother)) &&
      s.rows[chain[c]].oldBrother == rows[chain[|chain| - 1]].id &&
      s.rows[chain[c + 1]].oldBrother == (if c == 0 then 0 else rows[chain[c - 1]].id) &&
      (forall j :: 0 <= j < |rows| && j != chain[c] && j != chain[c + 1] ==> s.rows[j] == rows[j])
  {
    var o := chain[c];
    var rows1 := Detached(rows, o);
    var l := chain[|chain| - 1];
    DetachedLast(rows, chain, parent, role, c);
    MovedToEndIs(rows, o, chain[c + 1], l);
    DetachedChain(rows, chain, parent, role, c);
    WithPrevTouches(rows1, o, Some(l));
    assert rows1[l].id == rows[l].id;
  }

  /** Once entry `c` is taken out, `last_node` from its old successor is
      still the last entry. */
  lemma DetachedLast(rows: seq<RouteRow>, chain: seq<nat>, parent: int, role: string, c: nat)
    requires SiblingChain(rows, chain, parent, role) && c + 1 < |chain|
    ensures NextNode(rows, rows[chain[c]]) == Some(chain[c + 1])
    ensures LastFrom(Detached(rows, chain[c]), chain[c + 1], |rows|) == Ok(chain[|chain| - 1])
  {
    ChainNext(rows, chain, parent, role, c);
    ChainCount(rows, chain, parent, role, c);
    DetachedNext(rows, chain, parent, role, c);
    LastOfChain(Detached(rows, chain[c]), chain, c + 1, |rows|);
  }

  /** Moving to the end, when the node has a next node from which the last
      node is found, sets the node's prev_node to that last node. */
  lemma MovedToEndIs(rows: seq<RouteRow>, o: nat, next: nat, l: nat)
    requires o < |rows| && NextNode(rows, rows[o]) == Some(next)
    requires next < |rows| && LastFrom(Detached(rows, o), next, |rows|) == Ok(l)
    ensures l < |rows| && Moved(rows, o, None) == Effect(WithPrev(Detached(rows, o), o, Some(l)), Pass)
  {
  }

  /** Once entry `c` is taken out, `next_node` from a later entry is unchanged. */
  lemma DetachedNext(rows: seq<RouteRow>, chain: seq<nat>, parent: int, role: string, c: nat)
    requires SiblingChain(rows, chain, parent, role) && c + 1 < |chain|
    ensures var rows1 := Detached(rows, chain[c]);
      forall q :: c + 1 <= q < |chain| ==>
        NextNode(rows1, rows1[chain[q]]) == if q + 1 < |chain| then Some(chain[q + 1]) else None
  {
    var rows1 := Detached(rows, chain[c]);
    DetachedChain(rows, chain, parent, role, c);
    forall q | c + 1 <= q < |chain|
      ensures NextNode(rows1, rows1[chain[q]]) == if q + 1 < |chain| then Some(chain[q + 1]) else None
    {
      ChainNext(rows, chain, parent, role, q);
      var f := ByParentOldBrother(parent, rows[chain[q]].id);
      assert LinkAt(rows, chain, 0, c + 1);
      assert chain[q] != chain[c];
      assert c > 0 ==> chain[q] != chain[c - 1];
      forall j | 0 <= j < |rows| ensures Fits(rows1[j], f) == Fits(rows[j], f) {
        if j == chain[c + 1] {
          assert rows[chain[q]].id != rows[chain[c]].id;
          assert c > 0 ==> rows[chain[q]].id != rows[chain[c - 1]].id;
        }
      }
      FirstAtAgree(rows, rows1, f);
    }
  }

  /** The last node reached from entry q is the last entry. */
  lemma {:induction false} LastOfChain(rows: seq<RouteRow>, chain: seq<nat>, q: nat, fuel: nat)
    requires InTable(rows, chain) && q < |chain| && fuel + q + 1 >= |chain|
    requires forall i :: q <= i < |chain| ==> NextNode(rows, rows[chain[i]]) == if i + 1 < |chain| then Some(chain[i + 1]) else None
    ensures LastFrom(rows, chain[q], fuel) == Ok(chain[|chain| - 1])
    decreases |chain| - q
  {
    if q + 1 < |chain| {
      LastOfChain(rows, chain, q + 1, fuel - 1);
    }
  }

  /** The moved list holds the same positions. */
  lemma MovedMembers(chain: seq<nat>, c: nat, t: nat)
    requires c < |chain| && t < |chain|
    ensures forall x :: x in MovedTo(chain, c, t) <==> x in chain
  {
    var l := MovedTo(chain, c, t);
    MovedToMeaning(chain, c, t);
    forall x ensures x in l <==> x in chain {
      assert x in l <==> x in multiset(l);
      assert x in chain <==> x in multiset(chain);
    }
  }

  /** Moving an entry keeps the positions distinct. */
  lemma MovedDistinct(chain: seq<nat>, c: nat, t: nat)
    requires c < |chain| && t < |chain| && Distinct(chain)
    ensures Distinct(MovedTo(chain, c, t))
  {
    var l := MovedTo(chain, c, t);
    MovedToAt(chain, c, t);
    forall a, b | 0 <= a < b < |l| ensures l[a] != l[b] {
      var qa, qb := MovedFrom(c, t, a), MovedFrom(c, t, b);
      assert qa != qb;
      assert l[a] == chain[qa] && l[b] == chain[qb];
    }
  }

  /** Relinking rows of a sibling list, and only those, so that they are
      linked in the moved order gives the sibling list in the moved order. */
  lemma RelinkedChain(rows: seq<RouteRow>, other: seq<RouteRow>, chain: seq<nat>, parent: int, role: string, c: nat, t: nat)
    requires SiblingChain(rows, chain, parent, role) && c < |chain| && t < |chain|
    requires |other| == |rows| && forall j :: 0 <= j < |rows| ==> other[j] == rows[j].(oldBrother := other[j].oldBrother)
    requires forall j :: 0 <= j < |rows| && other[j] != rows[j] ==> j in chain
    requires InTable(other, MovedTo(chain, c, t)) && LinkedAfter(other, MovedTo(chain, c, t), 0)
    ensures SiblingChain(other, MovedTo(chain, c, t), parent, role)
  {
    var l := MovedTo(chain, c, t);
    MovedMembers(chain, c, t);
    MovedDistinct(chain, c, t);
    assert UniqueIds(other) by {
      assert forall a :: 0 <= a < |rows| ==> other[a].id == rows[a].id;
    }
    forall k | 0 <= k < |l| ensures other[l[k]].parent == parent && other[l[k]].role == role {
      assert l[k] in chain;
    }
    forall j, k | 0 <= j < |other| && 0 <= k < |l| && other[j].parent == parent && other[j].oldBrother == other[l[k]].id
      ensures j in l
    {
      if other[j] == rows[j] {
        assert l[k] in chain;
        var q :| 0 <= q < |chain| && chain[q] == l[k];
        assert rows[j].oldBrother == rows[chain[q]].id;
      }
    }
  }

  /** The links of a list moved up, entry by entry. */
  lemma UpLinks(rows: seq<RouteRow>, other: seq<RouteRow>, chain: seq<nat>, c: nat, t: nat)
    requires InTable(rows, chain) && |other| == |rows| && t < c < |chain| && LinkedAfter(rows, chain, 0)
    requires forall q :: 0 <= q < |chain| ==> other[chain[q]].id == rows[chain[q]].id
    requires forall q :: 0 <= q < |chain| && q != c && q != t && q != c + 1 ==> other[chain[q]].oldBrother == rows[chain[q]].oldBrother
    requires other[chain[c]].oldBrother == (if t == 0 then 0 else rows[chain[t - 1]].id)
    requires other[chain[t]].oldBrother == rows[chain[c]].id
    requires c + 1 < |chain| ==> other[chain[c + 1]].oldBrother == rows[chain[c - 1]].id
    ensures InTable(other, MovedTo(chain, c, t)) && LinkedAfter(other, MovedTo(chain, c, t), 0)
  {
    var l := MovedTo(chain, c, t);
    MovedToAt(chain, c, t);
    forall k | 0 <= k < |l| ensures LinkAt(other, l, 0, k) {
      var q := MovedFrom(c, t, k);
      assert LinkAt(rows, chain, 0, q);
      if k > 0 {
        assert other[l[k - 1]].id == rows[chain[MovedFrom(c, t, k - 1)]].id;
      }
    }
  }

  /** The links of a list moved down, entry by entry; `m` is whether a node
      follows the new place. */
  lemma DownLinks(rows: seq<RouteRow>, other: seq<RouteRow>, chain: seq<nat>, c: nat, t: nat)
    requires InTable(rows, chain) && |other| == |rows| && c < t < |chain| && LinkedAfter(rows, chain, 0)
    requires forall q :: 0 <= q < |chain| ==> other[chain[q]].id == rows[chain[q]].id
    requires forall q :: 0 <= q < |chain| && q != c && q != c + 1 && q != t + 1 ==> other[chain[q]].oldBrother == rows[chain[q]].oldBrother
    requires other[chain[c]].oldBrother == rows[chain[t]].id
    requires other[chain[c + 1]].oldBrother == (if c == 0 then 0 else rows[chain[c - 1]].id)
    requires t + 1 < |chain| ==> other[chain[t + 1]].oldBrother == rows[chain[c]].id
    ensures InTable(other, MovedTo(chain, c, t)) && LinkedAfter(other, MovedTo(chain, c, t), 0)
  {
    var l := MovedTo(chain, c, t);
    MovedToAt(chain, c, t);
    forall k | 0 <= k < |l| ensures LinkAt(other, l, 0, k) {
      var q := MovedFrom(c, t, k);
      assert LinkAt(rows, chain, 0, q);
      if k > 0 {
        assert other[l[k - 1]].id == rows[chain[MovedFrom(c, t, k - 1)]].id;
      }
    }
  }

  /** Rows that are not at one of the given entries keep their values. */
  lemma OthersKept(rows: seq<RouteRow>, other: seq<RouteRow>, chain: seq<nat>, parent: int, role: string, x: nat, y: nat, z: nat)
    requires SiblingChain(rows, chain, parent, role) && |other| == |rows| && x < |chain| && y < |chain| && z < |chain|
    requires forall j :: 0 <= j < |rows| && j != chain[x] && j != chain[y] && j != chain[z] ==> other[j] == rows[j]
    ensures forall q :: 0 <= q < |chain| && q != x && q != y && q != z ==> other[chain[q]] == rows[chain[q]]
    ensures forall j :: 0 <= j < |rows| && other[j] != rows[j] ==> j in chain
  {
  }

  /** Old brothers rewritten as moving entry `c` up to place `t` does give
      the moved sibling list. */
  lemma UpRelinked(rows: seq<RouteRow>, other: seq<RouteRow>, chain: seq<nat>, parent: int, role: string, c: nat, t: nat)
    requires SiblingChain(rows, chain, parent, role) && t < c < |chain| && |other| == |rows|
    requires forall j :: 0 <= j < |rows| ==> other[j] == rows[j].(oldBrother := other[j].oldBrother)
    requires other[chain[c]].oldBrother == (if t == 0 then 0 else rows[chain[t - 1]].id)
    requires other[chain[t]].oldBrother == rows[chain[c]].id
    requires c + 1 < |chain| ==> other[chain[c + 1]].oldBrother == rows[chain[c - 1]].id
    requires forall j :: 0 <= j < |rows| && j != chain[c] && j != chain[t] && (c + 1 < |chain| ==> j != chain[c + 1]) ==> other[j] == rows[j]
    ensures SiblingChain(other, MovedTo(chain, c, t), parent, role)
  {
    var z := if c + 1 < |chain| then c + 1 else c;
    OthersKept(rows, other, chain, parent, role, c, t, z);
    UpLinks(rows, other, chain, c, t);
    RelinkedChain(rows, other, chain, parent, role, c, t);
  }

  /** Old brothers rewritten as moving entry `c` down to place `t` does give
      the moved sibling list; at the end there is no entry t + 1 to relink. */
  lemma DownRelinked(rows: seq<RouteRow>, other: seq<RouteRow>, chain: seq<nat>, parent: int, role: string, c: nat, t: nat)
    requires SiblingChain(rows, chain, parent, role) && c < t < |chain| && |other| == |rows|
    requires forall j :: 0 <= j < |rows| ==> other[j] == rows[j].(oldBrother := other[j].oldBrother)
    requires other[chain[c]].oldBrother == rows[chain[t]].id
    requires other[chain[c + 1]].oldBrother == (if c == 0 then 0 else rows[chain[c - 1]].id)
    requires t + 1 < |chain| ==> other[chain[t + 1]].oldBrother == rows[chain[c]].id
    requires forall j :: 0 <= j < |rows| && j != chain[c] && j != chain[c + 1] && (t + 1 < |chain| ==> j != chain[t + 1]) ==> other[j] == rows[j]
    ensures SiblingChain(other, MovedTo(chain, c, t), parent, role)
  {
    var z := if t + 1 < |chain| then t + 1 else c;
    OthersKept(rows, other, chain, parent, role, c, c + 1, z);
    assert forall q :: 0 <= q < |chain| ==> other[chain[q]].id == rows[chain[q]].id;
    DownLinks(rows, other, chain, c, t);
    RelinkedChain(rows, other, chain, parent, role, c, t);
  }

  /** `update_node_index` moving a node up its sibling list. */
  lemma MovedUpChain(rows: seq<RouteRow>, chain: seq<nat>, parent: int, role: string, c: nat, t: nat)
    requires SiblingChain(rows, chain, parent, role) && t < c < |chain|
    ensures var s := Moved(rows, chain[c], Some(chain[t]));
      s.outcome == Pass && SiblingChain(s.rows, MovedTo(chain, c, t), parent, role)
  {
    MovedUpRows(rows, chain, parent, role, c, t);
    UpRelinked(rows, Moved(rows, chain[c], Some(chain[t])).rows, chain, parent, role, c, t);
  }

  /** `update_node_index` moving a node down its sibling list, not to the end. */
  lemma MovedDownChain(rows: seq<RouteRow>, chain: seq<nat>, parent: int, role: string, c: nat, t: nat)
    requires SiblingChain(rows, chain, parent, role) && c < t && t + 1 < |chain|
    ensures var s := Moved(rows, chain[c], Some(chain[t + 1]));
      s.outcome == Pass && SiblingChain(s.rows, MovedTo(chain, c, t), parent, role)
  {
    MovedDownRows(rows, chain, parent, role, c, t);
    DownRelinked(rows, Moved(rows, chain[c], Some(chain[t + 1])).rows, chain, parent, role, c, t);
  }

  /** `update_node_index` moving a node to the end of its sibling list. */
  lemma MovedToEndChain(rows: seq<RouteRow>, chain: seq<nat>, parent: int, role: string, c: nat)
    requires SiblingChain(rows, chain, parent, role) && c + 1 < |chain|
    ensures var s := Moved(rows, chain[c], None);
      s.outcome == Pass && SiblingChain(s.rows, MovedTo(chain, c, |chain| - 1), parent, role)
  {
    MovedToEndRows(rows, chain, parent, role, c);
    EndRelinked(rows, Moved(rows, chain[c], None).rows, chain, parent, role, c);
  }

  /** Old brothers rewritten as moving entry `c` to the end does give the
      moved sibling list. */
  lemma EndRelinked(rows: seq<RouteRow>, other: seq<RouteRow>, chain: seq<nat>, parent: int, role: string, c: nat)
    requires SiblingChain(rows, chain, parent, role) && c + 1 < |chain| && |other| == |rows|
    requires forall j :: 0 <= j < |rows| ==> other[j] == rows[j].(oldBrother := other[j].oldBrother)
    requires other[chain[c]].oldBrother == rows[chain[|chain| - 1]].id
    requires other[chain[c + 1]].oldBrother == (if c == 0 then 0 else rows[chain[c - 1]].id)
    requires forall j :: 0 <= j < |rows| && j != chain[c] && j != chain[c + 1] ==> other[j] == rows[j]
    ensures SiblingChain(other, MovedTo(chain, c, |chain| - 1), parent, role)
  {
    DownRelinked(rows, other, chain, parent, role, c, |chain| - 1);
  }

  /** Stepping `prev_node` d times from entry k reaches entry k - d. */
  lemma {:induction false} SteppedBack(rows: seq<RouteRow>, chain: seq<nat>, parent: int, role: string, k: nat, d: nat)
    requires SiblingChain(rows, chain, parent, role) && d <= k < |chain|
    ensures Stepped(rows, Some(chain[k]), d, false) == Ok(Some(chain[k - d]))
    decreases d
  {
    if d > 0 {
      ChainPrev(rows, chain, parent, role, k);
      SteppedBack(rows, chain, parent, role, k - 1, d - 1);
    }
  }

  /** Stepping `next_node` d times from entry k reaches entry k + d, or
      none just past the last entry. */
  lemma {:induction false} SteppedOn(rows: seq<RouteRow>, chain: seq<nat>, parent: int, role: string, k: nat, d: nat)
    requires SiblingChain(rows, chain, parent, role) && k < |chain| && k + d <= |chain|
    ensures Stepped(rows, Some(chain[k]), d, true) == Ok(if k + d < |chain| then Some(chain[k + d]) else None)
    decreases d
  {
    if d > 0 {
      ChainNext(rows, chain, parent, role, k);
      if k + 1 < |chain| {
        SteppedOn(rows, chain, parent, role, k + 1, d - 1);
      }
    }
  }

  // ---------------------------------------------------------------------
  // update_node_index
  // ---------------------------------------------------------------------

  /** `k` steps along `prev_node` (or `next_node` when `forward`) from `j`;
      a step from None raises. */
  function Stepped(rows: seq<RouteRow>, j: Option<nat>, k: nat, forward: bool): (r: Result<Option<nat>>)
    requires j.Some? ==> j.value < |rows|
    ensures r.Ok? && r.value.Some? ==> r.value.value < |rows|
    decreases k
  {
    if k == 0 then Ok(j)
    else if j.None? then Err(Crash(if forward then NextNodeOfNone else PrevNodeOfNone))
    else Stepped(rows, if forward then NextNode(rows, rows[j.value]) else PrevNode(rows, rows[j.value]), k - 1, forward)
  }

  /** Forward steps that stay on the list follow the walk. */
  lemma {:induction false} SteppedForward(rows: seq<RouteRow>, j: nat, k: nat)
    requires j < |rows| && Walk(rows, j, k).Some?
    ensures Stepped(rows, Some(j), k, true) == Ok(Walk(rows, j, k))
    decreases k
  {
    if k > 0 {
      SteppedForward(rows, NextNode(rows, rows[j]).value, k - 1);
    }
  }

  /** `update_node_index(node, index)`: the row `i` moved to position `index`. */
  function IndexUpdate(rows: seq<RouteRow>, i: nat, index: int): (s: Effect)
    requires i < |rows|
    ensures NodeIndexOf(rows, i).Err? ==> s == Effect(rows, Fail(NodeIndexOf(rows, i).error))
    ensures NodeIndexOf(rows, i).Ok? && (index < 1 || index > NodeCounts(rows, rows[i])) ==> s.rows == rows && s.outcome.Fail? && s.outcome.error.ValueErr?
    ensures NodeIndexOf(rows, i) == Ok(index) && 1 <= index <= NodeCounts(rows, rows[i]) ==> s == Effect(rows, Pass)
  {
    match NodeIndexOf(rows, i)
    case Err(e) => Effect(rows, Fail(e))
    case Ok(current) =>
      if index < 1 then Effect(rows, Fail(ValueErr("Index must be greater than 0")))
      else if index > NodeCounts(rows, rows[i]) then Effect(rows, Fail(ValueErr("Index must be less than or equal to node counts")))
      else if index == current then Effect(rows, Pass)
      else
        var diff := current - index;
        var target := if diff > 0 then Stepped(rows, Some(i), diff, false) else Stepped(rows, Some(i), -diff + 1, true);
        match target
        case Err(e) => Effect(rows, Fail(e))
        case Ok(m) => Moved(rows, i, m)
  }

  /** Moving down: the node goes in front of the `|diff| + 1`-th node after
      it, or to the end when the list runs out at exactly that step. */
  lemma MovingDownTarget(rows: seq<RouteRow>, i: nat, index: int)
    requires i < |rows| && NodeIndexOf(rows, i).Ok? && NodeIndexOf(rows, i).value < index <= NodeCounts(rows, rows[i])
    requires Walk(rows, i, index - NodeIndexOf(rows, i).value + 1).Some?
    ensures IndexUpdate(rows, i, index) == Moved(rows, i, Walk(rows, i, index - NodeIndexOf(rows, i).value + 1))
  {
    SteppedForward(rows, i, index - NodeIndexOf(rows, i).value + 1);
  }

  /** On a well-formed sibling list, moving its entry `c` to any position
      from 1 to its length passes, leaves the list holding the same nodes,
      the others in their old order, and puts the node at that position. */
  lemma IndexUpdateMeaning(rows: seq<RouteRow>, chain: seq<nat>, parent: int, role: string, c: nat, index: int)
    requires SiblingChain(rows, chain, parent, role) && c < |chain| && 1 <= index <= |chain|
    ensures var s := IndexUpdate(rows, chain[c], index);
      s.outcome == Pass &&
      SiblingChain(s.rows, MovedTo(chain, c, index - 1), parent, role) &&
      NodeIndexOf(s.rows, chain[c]) == Ok(index)
    ensures multiset(MovedTo(chain, c, index - 1)) == multiset(chain)
    ensures var l := MovedTo(chain, c, index - 1); l[..index - 1] + l[index..] == chain[..c] + chain[c + 1..]
  {
    var t: nat := index - 1;
    MovedToMeaning(chain, c, t);
    var s := IndexUpdate(rows, chain[c], index);
    IndexUpdateChain(rows, chain, parent, role, c, t);
    ChainIndex(s.rows, MovedTo(chain, c, t), parent, role, t);
  }

  /** The sibling list after `update_node_index` moves entry `c` to place t. */
  lemma IndexUpdateChain(rows: seq<RouteRow>, chain: seq<nat>, parent: int, role: string, c: nat, t: nat)
    requires SiblingChain(rows, chain, parent, role) && c < |chain| && t < |chain|
    ensures var s := IndexUpdate(rows, chain[c], t + 1);
      s.outcome == Pass && SiblingChain(s.rows, MovedTo(chain, c, t), parent, role)
  {
    if t == c {
      ChainIndex(rows, chain, parent, role, c);
      ChainCount(rows, chain, parent, role, c);
      MovedToSelf(chain, c);
    } else if t < c {
      IndexUpdateTarget(rows, chain, parent, role, c, t);
      MovedUpChain(rows, chain, parent, role, c, t);
    } else if t + 1 < |chain| {
      IndexUpdateTarget(rows, chain, parent, role, c, t);
      MovedDownChain(rows, chain, parent, role, c, t);
    } else {
      IndexUpdateTarget(rows, chain, parent, role, c, t);
      MovedToEndChain(rows, chain, parent, role, c);
    }
  }

  /** The node `update_node_index` moves entry `c` in front of, for place t:
      entry t when moving up, entry t + 1 when moving down, none at the end. */
  lemma IndexUpdateTarget(rows: seq<RouteRow>, chain: seq<nat>, parent: int, role: string, c: nat, t: nat)
    requires SiblingChain(rows, chain, parent, role) && c < |chain| && t < |chain| && t != c
    ensures IndexUpdate(rows, chain[c], t + 1) ==
      Moved(rows, chain[c], if t < c then Some(chain[t]) else if t + 1 < |chain| then Some(chain[t + 1]) else None)
  {
    ChainIndex(rows, chain, parent, role, c);
    ChainCount(rows, chain, parent, role, c);
    var i := chain[c];
    var m := if t < c then Some(chain[t]) else if t + 1 < |chain| then Some(chain[t + 1]) else None;
    var target := if t < c then Stepped(rows, Some(i), c - t, false) else Stepped(rows, Some(i), t - c + 1, true);
    if t < c {
      SteppedBack(rows, chain, parent, role, c, c - t);
    } else {
      SteppedOn(rows, chain, parent, role, c, t - c + 1);
    }
    assert target == Ok(m);
    IndexUpdateMoves(rows, i, t + 1, target);
  }

  /** Past its checks, `update_node_index` moves the node in front of the
      node its walk reaches. */
  lemma IndexUpdateMoves(rows: seq<RouteRow>, i: nat, index: int, target: Result<Option<nat>>)
    requires i < |rows| && NodeIndexOf(rows, i).Ok? && 1 <= index <= NodeCounts(rows, rows[i]) && index != NodeIndexOf(rows, i).value
    requires var diff := NodeIndexOf(rows, i).value - index;
      target == if diff > 0 then Stepped(rows, Some(i), diff, false) else Stepped(rows, Some(i), -diff + 1, true)
    requires target.Ok?
    ensures IndexUpdate(rows, i, index) == Moved(rows, i, target.value)
  {
  }

  /** One step of the loops of `update_node_index`. */
  lemma SteppedStep(rows: seq<RouteRow>, j: nat, k: nat, forward: bool)
    requires j < |rows| && k > 0
    ensures Stepped(rows, Some(j), k, forward) ==
      Stepped(rows, if forward then NextNode(rows, rows[j]) else PrevNode(rows, rows[j]), k - 1, forward)
  {
  }

  /** `diff` steps from `i` along prev_node, or `next_node` when `forward`. */
  method Step(t: RouteTable, i: nat, diff: nat, forward: bool) returns (r: Result<Option<nat>>)
    requires i < |t.rows|
    ensures r == Stepped(t.rows, Some(i), diff, forward)
  {
    var rows := t.rows;
    var move: Option<nat> := Some(i);
    for n := 0 to diff
      invariant move.Some? ==> move.value < |rows|
      invariant Stepped(rows, move, diff - n, forward) == Stepped(rows, Some(i), diff, forward)
    {
      if move.None? {
        return Err(Crash(if forward then NextNodeOfNone else PrevNodeOfNone));
      }
      SteppedStep(rows, move.value, diff - n, forward);
      move := if forward then NextNode(rows, rows[move.value]) else PrevNode(rows, rows[move.value]);
    }
    return Ok(move);
  }

  /** `update_node_index`, on the table `t`. */
  method UpdateNodeIndex(t: RouteTable, i: nat, index: int) returns (r: Outcome)
    requires i < |t.rows|
    modifies t
    ensures t.rows == IndexUpdate(old(t.rows), i, index).rows && r == IndexUpdate(old(t.rows), i, index).outcome
  {
    var current := t.NodeIndex(i);
    if current.Err? {
      return Fail(current.error);
    }
    if index < 1 {
      return Fail(ValueErr("Index must be greater than 0"));
    }
    if index > NodeCounts(t.rows, t.rows[i]) {
      return Fail(ValueErr("Index must be less than or equal to node counts"));
    }
    if index == current.value {
      return Pass;
    }
    var diff := current.value - index;
    var move;
    if diff > 0 {
      move := Step(t, i, diff, false);
    } else {
      move := Step(t, i, -diff + 1, true);
    }
    if move.Err? {
      return Fail(move.error);
    }
    r := MoveNode(t, i, move.value);
  }

  // ---------------------------------------------------------------------
  // update_plugin_hidden
  // ---------------------------------------------------------------------

  /** Which route each plugin's pages live under. */
  const PluginNameMapping: map<string, string> := map[
    "checkmarx" := "Checkmarx", "cmas" := "Cmas", "postman" := "Postmans",
    "webinspect" := "Webinspects", "zap" := "Zap", "sbom" := "Sbom",
    "sonarqube" := "Sonarqube", "sideex" := "Sideex", "excalidraw" := "Whiteboard"
  ]

  /** A row with its `ui_route["hidden"]` set when it carries the route name. */
  function HideRow(row: RouteRow, name: string, hidden: bool): RouteRow {
    if row.name == name then row.(uiRoute := row.uiRoute[HiddenKey := JBool(hidden)]) else row
  }

  /** The rows after `update_plugin_hidden` has set the routes called `name`. */
  function WithHidden(rows: seq<RouteRow>, name: string, hidden: bool): (r: seq<RouteRow>)
    ensures |r| == |rows| && forall k :: 0 <= k < |rows| ==> r[k] == HideRow(rows[k], name, hidden)
  {
    seq(|rows|, k requires 0 <= k < |rows| => HideRow(rows[k], name, hidden))
  }

  /** Hiding a plugin leaves the route tree as it is: ids, names, roles,
      parents and sibling links are unchanged, so every navigation step
      gives the same answers. Hiding twice is hiding once. */
  lemma HidingKeepsTree(rows: seq<RouteRow>, name: string, hidden: bool)
    ensures var r := WithHidden(rows, name, hidden);
      forall k :: 0 <= k < |rows| ==>
        r[k].id == rows[k].id && r[k].name == rows[k].name && r[k].role == rows[k].role &&
        r[k].parent == rows[k].parent && r[k].oldBrother == rows[k].oldBrother
    ensures var r := WithHidden(rows, name, hidden);
      forall k :: 0 <= k < |rows| ==> r[k].name == name ==> r[k].uiRoute == rows[k].uiRoute[HiddenKey := JBool(hidden)]
    ensures WithHidden(WithHidden(rows, name, hidden), name, hidden) == WithHidden(rows, name, hidden)
  {
    var r := WithHidden(rows, name, hidden);
    forall k | 0 <= k < |rows| ensures HideRow(r[k], name, hidden) == r[k] {
      if rows[k].name == name {
        var m := rows[k].uiRoute[HiddenKey := JBool(hidden)];
        assert m[HiddenKey := JBool(hidden)] == m;
      }
    }
  }

  /** `update_plugin_hidden(plugin_name, hidden)`: nothing happens for a
      plugin missing from the mapping. */
  method UpdatePluginHidden(t: RouteTable, pluginName: string, hidden: bool)
    modifies t
    ensures pluginName !in PluginNameMapping ==> t.rows == old(t.rows)
    ensures pluginName in PluginNameMapping ==> t.rows == WithHidden(old(t.rows), PluginNameMapping[pluginName], hidden)
  {
    if pluginName !in PluginNameMapping {
      return;
    }
    var name := PluginNameMapping[pluginName];
    for k := 0 to |t.rows|
      invariant |t.rows| == |old(t.rows)|
      invariant forall j :: 0 <= j < k ==> t.rows[j] == HideRow(old(t.rows)[j], name, hidden)
      invariant forall j :: k <= j < |t.rows| ==> t.rows[j] == old(t.rows)[j]
    {
      if t.rows[k].name == name {
        t.rows := t.rows[k := t.rows[k].(uiRoute := t.rows[k].uiRoute[HiddenKey := JBool(hidden)])];
      }
    }
  }
}
