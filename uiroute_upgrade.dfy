/** `apis/migrate/upgrade_function/ui_route_upgrade.py`: loading UI route
    trees into the UIRouteData table and creating, deleting, replacing and
    renaming single routes, keeping every sibling list linked through
    old_brother. The table is a `RouteStore`: its rows plus the next value
    of the autoincrement id. */
module RouteUpgrade {
  import opened Wrappers
  import opened Strs
  import opened Model

  const ChildrenKey: string := "children"
  const NameKey: string := "name"
  const MetaKey: string := "meta"
  const RolesKey: string := "roles"

  const RecursionMessage: string := "maximum recursion depth exceeded"
  const OldBrotherOfNone: string := "'NoneType' object has no attribute 'old_brother'"
  const UiRouteOfNone: string := "'NoneType' object has no attribute 'ui_route'"
  const NameKeyMessage: string := "KeyError: 'name'"
  const IndexMessage: string := "IndexError: list index out of range"
  const TypeMessage: string := "TypeError"

  /** The table: its rows in table order and the id the next inserted row gets. */
  datatype Store = Store(rows: seq<RouteRow>, nextId: int)

  /** The table after an operation that may raise part way; the rows written
      before the exception stay written, as every step commits. */
  datatype Change = Change(st: Store, outcome: Outcome)

  /** Ids are positive, unique and below `nextId`, and so is every parent
      and old_brother reference (0 and NULL included). */
  predicate Valid(st: Store) {
    st.nextId > 0 && UniqueIds(st.rows) &&
    forall a :: 0 <= a < |st.rows| ==>
      st.rows[a].id < st.nextId && st.rows[a].parent < st.nextId && st.rows[a].oldBrother < st.nextId
  }

  function ByNameRole(name: string, role: string): Filter {
    Filter(None, Some(name), Some(role), None, None)
  }

  /** A new row with the autoincrement id. */
  function Added(st: Store, name: string, role: string, parent: int, oldBrother: int, uiRoute: map<string, Json>): (r: Store)
    ensures r.rows == st.rows + [RouteRow(st.nextId, name, role, parent, oldBrother, uiRoute)]
    ensures r.nextId == st.nextId + 1
  {
    Store(st.rows + [RouteRow(st.nextId, name, role, parent, oldBrother, uiRoute)], st.nextId + 1)
  }

  /** Row `i` now follows the row with id `ob`. */
  function Relinked(st: Store, i: nat, ob: int): Store
    requires i < |st.rows|
  {
    st.(rows := st.rows[i := st.rows[i].(oldBrother := ob)])
  }

  // ---------------------------------------------------------------------
  // get_ui_route_id
  // ---------------------------------------------------------------------

  /** `get_ui_route_id`: 0 for the empty name, the id of the first route of
      that name and role, or NULL when there is none (the function prints
      and returns None). A name of None matches no row. */
  function RouteId(rows: seq<RouteRow>, role: string, name: Option<string>): (r: int)
    ensures name.None? ==> r == Null
    ensures name == Some("") ==> r == 0
  {
    match name
    case None => Null
    case Some(n) =>
      if n == "" then 0
      else match FirstAt(rows, ByNameRole(n, role))
        case None => Null
        case Some(k) => rows[k].id
  }

  /** A non-empty name gives NULL exactly when no route of that name and
      role exists, and otherwise the id of one that does. */
  lemma RouteIdMeaning(rows: seq<RouteRow>, role: string, n: string)
    requires n != "" && UniqueIds(rows)
    ensures RouteId(rows, role, Some(n)) == Null <==> forall k :: 0 <= k < |rows| ==> !(rows[k].name == n && rows[k].role == role)
    ensures RouteId(rows, role, Some(n)) != Null ==>
      exists k :: 0 <= k < |rows| && rows[k].id == RouteId(rows, role, Some(n)) && rows[k].name == n && rows[k].role == role
  {
    FirstAtIsFirst(rows, ByNameRole(n, role));
  }

  /** Every value `RouteId` gives is 0, NULL or the id of a row. */
  lemma RouteIdBelow(st: Store, role: string, name: Option<string>)
    requires Valid(st)
    ensures RouteId(st.rows, role, name) < st.nextId && RouteId(st.rows, role, name) != st.nextId
  {
  }

  // ---------------------------------------------------------------------
  // create_ui_route_object
  // ---------------------------------------------------------------------

  /** `create_ui_route_object`: nothing when a route of that name and role
      exists; otherwise the new route is inserted first (no old brother
      name), last (no route follows its old brother) or in the middle, and
      the route that held its place now follows it. */
  function Created(st: Store, name: string, role: string, json: map<string, Json>,
                   parentName: Option<string>, oldBrotherName: Option<string>): (r: Store)
    ensures FirstAt(st.rows, ByNameRole(name, role)).Some? ==> r == st
    ensures FirstAt(st.rows, ByNameRole(name, role)).None? ==>
      |r.rows| == |st.rows| + 1 && r.nextId == st.nextId + 1 &&
      r.rows[|st.rows|] == RouteRow(st.nextId, name, role, RouteId(st.rows, role, parentName), RouteId(st.rows, role, oldBrotherName), json)
  {
    if FirstAt(st.rows, ByNameRole(name, role)).Some? then st
    else
      var p := RouteId(st.rows, role, parentName);
      var b := RouteId(st.rows, role, oldBrotherName);
      var origin := FirstAt(st.rows, Filter(None, None, Some(role), Some(p), Some(b)));
      if b == 0 then
        var added := Added(st, name, role, p, 0, json);
        if origin.Some? then Relinked(added, origin.value, st.nextId) else added
      else if origin.None? then
        Added(st, name, role, p, b, json)
      else
        Relinked(Added(st, name, role, p, b, json), origin.value, st.nextId)
  }

  /** The route that held the new route's place under its parent and role. */
  function Origin(st: Store, role: string, parentName: Option<string>, oldBrotherName: Option<string>): Option<nat> {
    FirstAt(st.rows, Filter(None, None, Some(role), Some(RouteId(st.rows, role, parentName)), Some(RouteId(st.rows, role, oldBrotherName))))
  }

  /** In a valid table the new row's id is the only one of its value, and
      the origin is the only row that names it as old brother. */
  lemma FreshId(after: seq<RouteRow>, n: nat, id: int, o: nat)
    requires n < |after| && o < |after| && after[n].id == id && after[o].oldBrother == id
    requires forall k :: 0 <= k < |after| && k != n ==> after[k].id != id
    requires forall k :: 0 <= k < |after| && k != o ==> after[k].oldBrother != id
    ensures PrevNode(after, after[o]) == (if after[o].parent == after[n].parent && id != 0 then Some(n) else None)
    ensures NextNode(after, after[n]) == (if after[o].parent == after[n].parent then Some(o) else None)
  {
    FirstAtIsFirst(after, Filter(Some(id), None, None, Some(after[o].parent), None));
    FirstAtIsFirst(after, ByParentOldBrother(after[n].parent, id));
  }

  /** Insert first: the new route has old_brother 0, and the route that was
      first, if any, now has the new route as its previous sibling; no
      other row changes. */
  lemma CreateFirst(st: Store, name: string, role: string, json: map<string, Json>, parentName: Option<string>)
    requires Valid(st) && FirstAt(st.rows, ByNameRole(name, role)).None?
    ensures var r := Created(st, name, role, json, parentName, Some(""));
      var o := Origin(st, role, parentName, Some(""));
      r.rows[|st.rows|].oldBrother == 0 &&
      (o.None? ==> r.rows == st.rows + [r.rows[|st.rows|]]) &&
      (o.Some? ==>
         r.rows[o.value] == st.rows[o.value].(oldBrother := st.nextId) &&
         PrevNode(r.rows, r.rows[o.value]) == Some(|st.rows|) &&
         NextNode(r.rows, r.rows[|st.rows|]) == Some(o.value)) &&
      forall k :: 0 <= k < |st.rows| && Some(k) != o ==> r.rows[k] == st.rows[k]
  {
    var r := Created(st, name, role, json, parentName, Some(""));
    var o := Origin(st, role, parentName, Some(""));
    RouteIdBelow(st, role, parentName);
    if o.Some? {
      FreshId(r.rows, |st.rows|, st.nextId, o.value);
    }
  }

  /** Insert last: when no route follows the old brother, the new route
      follows it and no other row changes. */
  lemma CreateLast(st: Store, name: string, role: string, json: map<string, Json>, parentName: Option<string>, oldBrotherName: Option<string>)
    requires Valid(st) && FirstAt(st.rows, ByNameRole(name, role)).None?
    requires RouteId(st.rows, role, oldBrotherName) != 0 && Origin(st, role, parentName, oldBrotherName).None?
    ensures var r := Created(st, name, role, json, parentName, oldBrotherName);
      r.rows == st.rows + [RouteRow(st.nextId, name, role, RouteId(st.rows, role, parentName), RouteId(st.rows, role, oldBrotherName), json)]
  {
  }

  /** Insert in the middle: the route that followed the old brother now
      follows the new route, which follows the old brother; no other row
      changes. */
  lemma CreateMiddle(st: Store, name: string, role: string, json: map<string, Json>, parentName: Option<string>, oldBrotherName: Option<string>)
    requires Valid(st) && FirstAt(st.rows, ByNameRole(name, role)).None?
    requires RouteId(st.rows, role, oldBrotherName) != 0 && Origin(st, role, parentName, oldBrotherName).Some?
    ensures var r := Created(st, name, role, json, parentName, oldBrotherName);
      var o := Origin(st, role, parentName, oldBrotherName).value;
      r.rows[|st.rows|].oldBrother == RouteId(st.rows, role, oldBrotherName) &&
      st.rows[o].oldBrother == RouteId(st.rows, role, oldBrotherName) &&
      r.rows[o] == st.rows[o].(oldBrother := st.nextId) &&
      PrevNode(r.rows, r.rows[o]) == Some(|st.rows|) &&
      NextNode(r.rows, r.rows[|st.rows|]) == Some(o) &&
      forall k :: 0 <= k < |st.rows| && k != o ==> r.rows[k] == st.rows[k]
  {
    var r := Created(st, name, role, json, parentName, oldBrotherName);
    var o := Origin(st, role, parentName, oldBrotherName).value;
    RouteIdBelow(st, role, parentName);
    FreshId(r.rows, |st.rows|, st.nextId, o);
  }

  /** Pointing a row at an old id keeps the table valid. */
  lemma RelinkedValid(st: Store, i: nat, ob: int)
    requires Valid(st) && i < |st.rows| && ob < st.nextId
    ensures Valid(Relinked(st, i, ob))
  {
    assert forall a :: 0 <= a < |st.rows| ==> Relinked(st, i, ob).rows[a].id == st.rows[a].id;
  }

  /** Creating keeps the table valid. */
  lemma CreatedValid(st: Store, name: string, role: string, json: map<string, Json>,
                     parentName: Option<string>, oldBrotherName: Option<string>)
    requires Valid(st)
    ensures Valid(Created(st, name, role, json, parentName, oldBrotherName))
  {
    if FirstAt(st.rows, ByNameRole(name, role)).None? {
      var p := RouteId(st.rows, role, parentName);
      var b := RouteId(st.rows, role, oldBrotherName);
      var origin := Origin(st, role, parentName, oldBrotherName);
      RouteIdBelow(st, role, parentName);
      RouteIdBelow(st, role, oldBrotherName);
      var added := Added(st, name, role, p, if b == 0 then 0 else b, json);
      AddedValid(st, name, role, p, if b == 0 then 0 else b, json);
      if origin.Some? {
        RelinkedValid(added, origin.value, st.nextId);
      }
    }
  }

  // ---------------------------------------------------------------------
  // delete_ui_route_object
  // ---------------------------------------------------------------------

  /** The rows without the one of id `id`. */
  function RemoveId(rows: seq<RouteRow>, id: int): (r: seq<RouteRow>)
    ensures |r| <= |rows|
    ensures forall a :: 0 <= a < |r| ==> r[a].id != id
  {
    if rows == [] then []
    else (if rows[0].id == id then [] else [rows[0]]) + RemoveId(rows[1..], id)
  }

  /** The row of id `id`, if it is still there, now has old_brother `ob`. */
  function SetOldBrother(rows: seq<RouteRow>, id: int, ob: int): (r: seq<RouteRow>)
    ensures |r| == |rows|
    ensures forall a :: 0 <= a < |r| ==> r[a] == if rows[a].id == id then rows[a].(oldBrother := ob) else rows[a]
  {
    seq(|rows|, a requires 0 <= a < |rows| => if rows[a].id == id then rows[a].(oldBrother := ob) else rows[a])
  }

  /** `delete_ui_route_object(name, role)`, at most `fuel` calls deep: the
      first route of that name and role (an AttributeError when there is
      none) loses every child of its role, each deleted by name in turn;
      then the route itself goes, and the route whose old_brother was its
      id (looked up before the children were deleted) takes over its
      old_brother. */
  function DeleteRoute(st: Store, name: string, role: string, fuel: nat): (r: Change)
    ensures r.outcome.Pass? ==> fuel > 0 && FirstAt(st.rows, ByNameRole(name, role)).Some?
    decreases fuel, 0, 0
  {
    if fuel == 0 then Change(st, Fail(Crash(RecursionMessage)))
    else match FirstAt(st.rows, ByNameRole(name, role))
      case None => Change(st, Fail(Crash(OldBrotherOfNone)))
      case Some(i) =>
        var row := st.rows[i];
        var young := YoungBrother(st.rows, role, row.id);
        var c := DeleteEach(st, Children(st.rows, role, row.id), role, fuel - 1);
        if c.outcome.Fail? then c
        else Change(Unlinked(c.st, row.id, row.oldBrother, young), Pass)
  }

  /** The end of `delete_ui_route_object`: the route of id `id` goes, and
      its younger brother, if there was one, takes over its old_brother
      `ob` (0 when the route was first). */
  function Unlinked(st: Store, id: int, ob: int, young: Option<int>): Store {
    var rows := RemoveId(st.rows, id);
    if ob == 0 then
      if young.Some? then st.(rows := SetOldBrother(rows, young.value, 0))
      else st.(rows := rows)
    else if young.None? then st.(rows := rows)
    else st.(rows := SetOldBrother(rows, young.value, ob))
  }

  /** The routes of `kids` deleted by name, in order, stopping at the first
      that raises. */
  function DeleteEach(st: Store, kids: seq<RouteRow>, role: string, fuel: nat): Change
    decreases fuel, 1, |kids|
  {
    if kids == [] then Change(st, Pass)
    else
      var c := DeleteRoute(st, kids[0].name, role, fuel);
      if c.outcome.Fail? then c else DeleteEach(c.st, kids[1..], role, fuel)
  }

  /** `get_young_brother_id`: the id of the first route of the role whose
      old_brother is `id`. */
  function YoungBrother(rows: seq<RouteRow>, role: string, id: int): Option<int> {
    match FirstAt(rows, Filter(None, None, Some(role), None, Some(id)))
    case None => None
    case Some(k) => Some(rows[k].id)
  }

  /** The children of role `role` of the route of id `id`, in table order. */
  function Children(rows: seq<RouteRow>, role: string, id: int): seq<RouteRow> {
    Matching(rows, Filter(None, None, Some(role), Some(id), None))
  }

  /** A row with its old_brother link blanked out. */
  function Shape(x: RouteRow): RouteRow {
    x.(oldBrother := 0)
  }

  /** The rows of a table, links blanked out. */
  function Shapes(rows: seq<RouteRow>): set<RouteRow> {
    set x | x in rows :: Shape(x)
  }

  /** Every row of `after` was a row of `before`, up to its old_brother:
      nothing was invented and nothing but links was rewritten. */
  predicate Kept(after: seq<RouteRow>, before: seq<RouteRow>) {
    Shapes(after) <= Shapes(before)
  }

  /** Routes of the same name and role are one route. */
  predicate SameNameSameId(rows: seq<RouteRow>) {
    forall a, b :: 0 <= a < |rows| && 0 <= b < |rows| && rows[a].name == rows[b].name && rows[a].role == rows[b].role ==> rows[a].id == rows[b].id
  }

  /** No route of that name and role is left. */
  predicate NameGone(rows: seq<RouteRow>, name: string, role: string) {
    forall a :: 0 <= a < |rows| ==> !(rows[a].name == name && rows[a].role == role)
  }

  /** A kept row has the id, name and role of some row it came from. */
  lemma KeptRow(after: seq<RouteRow>, before: seq<RouteRow>, a: nat)
    requires Kept(after, before) && a < |after|
    ensures exists b :: 0 <= b < |before| && Shape(after[a]) == Shape(before[b])
  {
    assert Shape(after[a]) in Shapes(after);
  }

  lemma KeptNames(after: seq<RouteRow>, before: seq<RouteRow>)
    requires Kept(after, before)
    ensures SameNameSameId(before) ==> SameNameSameId(after)
    ensures forall name, role :: NameGone(before, name, role) ==> NameGone(after, name, role)
  {
    forall a | 0 <= a < |after| {
      KeptRow(after, before, a);
    }
  }

  /** The rows `RemoveId` keeps are rows of the table. */
  lemma {:induction false} RemoveIdIn(rows: seq<RouteRow>, id: int)
    ensures forall a :: 0 <= a < |RemoveId(rows, id)| ==> RemoveId(rows, id)[a] in rows
  {
    if rows != [] {
      RemoveIdIn(rows[1..], id);
    }
  }

  /** `RemoveId` keeps ids unique. */
  lemma {:induction false} RemoveIdUnique(rows: seq<RouteRow>, id: int)
    requires UniqueIds(rows)
    ensures UniqueIds(RemoveId(rows, id))
  {
    if rows != [] {
      var rest := RemoveId(rows[1..], id);
      UniqueTail(rows);
      RemoveIdUnique(rows[1..], id);
      if rows[0].id != id {
        RemoveIdIn(rows[1..], id);
        forall a | 0 <= a < |rest| ensures rest[a].id != rows[0].id {
          var b :| 0 <= b < |rows[1..]| && rows[1..][b] == rest[a];
          assert rows[b + 1] == rest[a];
        }
        UniqueCons(rows[0], rest);
      }
    }
  }

  lemma UniqueTail(rows: seq<RouteRow>)
    requires UniqueIds(rows) && |rows| > 0
    ensures UniqueIds(rows[1..])
  {
    assert forall a :: 0 <= a < |rows| - 1 ==> rows[1..][a] == rows[a + 1];
  }

  lemma UniqueCons(x: RouteRow, rest: seq<RouteRow>)
    requires UniqueIds(rest) && x.id > 0
    requires forall a :: 0 <= a < |rest| ==> rest[a].id != x.id
    ensures UniqueIds([x] + rest)
  {
    var r := [x] + rest;
    assert forall a :: 0 < a < |r| ==> r[a] == rest[a - 1];
  }

  /** The end of a deletion keeps the rows, the bounds and the unique ids. */
  lemma UnlinkedKeeps(st: Store, id: int, ob: int, young: Option<int>)
    ensures var u := Unlinked(st, id, ob, young); Kept(u.rows, st.rows) && u.nextId == st.nextId
    ensures Valid(st) && ob < st.nextId ==> Valid(Unlinked(st, id, ob, young))
  {
    var rows := RemoveId(st.rows, id);
    RemoveIdIn(st.rows, id);
    assert Kept(rows, st.rows);
    if Valid(st) {
      RemoveIdUnique(st.rows, id);
    }
    if young.Some? {
      var rows2 := SetOldBrother(rows, young.value, if ob == 0 then 0 else ob);
      assert Shapes(rows2) == Shapes(rows) by {
        assert forall a :: 0 <= a < |rows2| ==> Shape(rows2[a]) == Shape(rows[a]);
      }
      if Valid(st) && ob < st.nextId {
        assert UniqueIds(rows2) by {
          assert forall a :: 0 <= a < |rows2| ==> rows2[a].id == rows[a].id;
        }
      }
    }
  }

  /** A deletion only removes rows and rewrites links, and keeps the table
      valid. */
  lemma {:induction false} DeleteKeeps(st: Store, name: string, role: string, fuel: nat)
    ensures var c := DeleteRoute(st, name, role, fuel); Kept(c.st.rows, st.rows) && c.st.nextId == st.nextId
    ensures Valid(st) ==> Valid(DeleteRoute(st, name, role, fuel).st)
    decreases fuel, 0, 0
  {
    if fuel == 0 || FirstAt(st.rows, ByNameRole(name, role)).None? {
    } else {
      var row := st.rows[FirstAt(st.rows, ByNameRole(name, role)).value];
      var c := DeleteEach(st, Children(st.rows, role, row.id), role, fuel - 1);
      DeleteEachKeeps(st, Children(st.rows, role, row.id), role, fuel - 1);
      if c.outcome.Pass? {
        UnlinkedKeeps(c.st, row.id, row.oldBrother, YoungBrother(st.rows, role, row.id));
      }
    }
  }

  lemma {:induction false} DeleteEachKeeps(st: Store, kids: seq<RouteRow>, role: string, fuel: nat)
    ensures var c := DeleteEach(st, kids, role, fuel); Kept(c.st.rows, st.rows) && c.st.nextId == st.nextId
    ensures Valid(st) ==> Valid(DeleteEach(st, kids, role, fuel).st)
    decreases fuel, 1, |kids|
  {
    if kids == [] {
    } else {
      var c := DeleteRoute(st, kids[0].name, role, fuel);
      DeleteKeeps(st, kids[0].name, role, fuel);
      if c.outcome.Pass? {
        DeleteEachKeeps(c.st, kids[1..], role, fuel);
      }
    }
  }

  /** A route that does not exist cannot be deleted: `route_row` is None. */
  lemma DeleteMissing(st: Store, name: string, role: string, fuel: nat)
    requires fuel > 0 && NameGone(st.rows, name, role)
    ensures DeleteRoute(st, name, role, fuel) == Change(st, Fail(Crash(OldBrotherOfNone)))
  {
    FirstAtIsFirst(st.rows, ByNameRole(name, role));
  }

  /** A deletion that completes leaves no row with the route's id and
      gives its younger brother its old_brother. */
  lemma DeleteRelinks(st: Store, name: string, role: string, fuel: nat)
    requires DeleteRoute(st, name, role, fuel).outcome.Pass?
    ensures fuel > 0 && FirstAt(st.rows, ByNameRole(name, role)).Some?
    ensures var row := st.rows[FirstAt(st.rows, ByNameRole(name, role)).value];
      var after := DeleteRoute(st, name, role, fuel).st.rows;
      var young := YoungBrother(st.rows, role, row.id);
      (forall a :: 0 <= a < |after| ==> after[a].id != row.id) &&
      (young.Some? ==> forall a :: 0 <= a < |after| && after[a].id == young.value ==> after[a].oldBrother == row.oldBrother)
  {
  }

  /** When routes of the same name and role are one route, a deletion that
      completes leaves no route of that name. */
  lemma DeleteRemoves(st: Store, name: string, role: string, fuel: nat)
    requires SameNameSameId(st.rows) && DeleteRoute(st, name, role, fuel).outcome.Pass?
    ensures NameGone(DeleteRoute(st, name, role, fuel).st.rows, name, role)
  {
    var i := FirstAt(st.rows, ByNameRole(name, role)).value;
    var row := st.rows[i];
    var kids := Children(st.rows, role, row.id);
    var c := DeleteEach(st, kids, role, fuel - 1);
    var after := DeleteRoute(st, name, role, fuel).st.rows;
    UnlinkedKeeps(c.st, row.id, row.oldBrother, YoungBrother(st.rows, role, row.id));
    DeleteEachKeeps(st, kids, role, fuel - 1);
    DeleteRelinks(st, name, role, fuel);
    forall a | 0 <= a < |after| ensures !(after[a].name == name && after[a].role == role) {
      KeptRow(after, st.rows, a);
      var b :| 0 <= b < |st.rows| && Shape(after[a]) == Shape(st.rows[b]);
      assert Fits(st.rows[i], ByNameRole(name, role));
    }
  }

  /** Deleting a list of routes by name, when routes of the same name and
      role are one route, leaves none of those names. */
  lemma {:induction false} DeleteEachRemoves(st: Store, kids: seq<RouteRow>, role: string, fuel: nat)
    requires SameNameSameId(st.rows) && DeleteEach(st, kids, role, fuel).outcome.Pass?
    ensures forall k :: 0 <= k < |kids| ==> NameGone(DeleteEach(st, kids, role, fuel).st.rows, kids[k].name, role)
    decreases |kids|
  {
    if kids != [] {
      var c := DeleteRoute(st, kids[0].name, role, fuel);
      DeleteRemoves(st, kids[0].name, role, fuel);
      DeleteKeeps(st, kids[0].name, role, fuel);
      KeptNames(c.st.rows, st.rows);
      DeleteEachRemoves(c.st, kids[1..], role, fuel);
      DeleteEachKeeps(c.st, kids[1..], role, fuel);
      KeptNames(DeleteEach(c.st, kids[1..], role, fuel).st.rows, c.st.rows);
      assert forall k :: 1 <= k < |kids| ==> kids[k] == kids[1..][k - 1];
    }
  }

  /** Children are deleted first: when a deletion completes and routes of
      the same name and role are one route, no child of the route's role
      is left. */
  lemma DeleteChildrenFirst(st: Store, name: string, role: string, fuel: nat)
    requires SameNameSameId(st.rows) && DeleteRoute(st, name, role, fuel).outcome.Pass?
    ensures fuel > 0 && FirstAt(st.rows, ByNameRole(name, role)).Some?
    ensures var row := st.rows[FirstAt(st.rows, ByNameRole(name, role)).value];
      var after := DeleteRoute(st, name, role, fuel).st.rows;
      forall b :: 0 <= b < |st.rows| && st.rows[b].role == role && st.rows[b].parent == row.id ==>
        NameGone(after, st.rows[b].name, role)
  {
    var i := FirstAt(st.rows, ByNameRole(name, role)).value;
    var row := st.rows[i];
    var kids := Children(st.rows, role, row.id);
    var c := DeleteEach(st, kids, role, fuel - 1);
    var after := DeleteRoute(st, name, role, fuel).st.rows;
    DeleteEachRemoves(st, kids, role, fuel - 1);
    UnlinkedKeeps(c.st, row.id, row.oldBrother, YoungBrother(st.rows, role, row.id));
    KeptNames(after, c.st.rows);
    MatchingMembers(st.rows, Filter(None, None, Some(role), Some(row.id), None));
    forall b | 0 <= b < |st.rows| && st.rows[b].role == role && st.rows[b].parent == row.id
      ensures NameGone(after, st.rows[b].name, role)
    {
      assert Fits(st.rows[b], Filter(None, None, Some(role), Some(row.id), None));
      assert st.rows[b] in kids;
      var k :| 0 <= k < |kids| && kids[k] == st.rows[b];
    }
  }

  // ---------------------------------------------------------------------
  // put_ui_route_object and rename_ui_route
  // ---------------------------------------------------------------------

  /** `put_ui_route_object`: with a parent or old brother name the route
      is deleted and created again at its new place; otherwise only its
      ui_route is replaced, an AttributeError when the route is missing.
      The deletion is allowed one call per row and one more. */
  function Put(st: Store, name: string, role: string, json: map<string, Json>,
               parentName: Option<string>, oldBrotherName: Option<string>): (r: Change)
    ensures r.outcome.Pass? ==> FirstAt(st.rows, ByNameRole(name, role)).Some?
    ensures parentName.None? && oldBrotherName.None? ==> |r.st.rows| == |st.rows|
  {
    if parentName.Some? || oldBrotherName.Some? then
      var c := DeleteRoute(st, name, role, |st.rows| + 1);
      if c.outcome.Fail? then c
      else Change(Created(c.st, name, role, json, parentName, oldBrotherName), Pass)
    else match FirstAt(st.rows, ByNameRole(name, role))
      case None => Change(st, Fail(Crash(UiRouteOfNone)))
      case Some(i) => Change(st.(rows := st.rows[i := st.rows[i].(uiRoute := json)]), Pass)
  }

  /** Creating a route adds one row and changes no name or role of the
      rows already there. */
  lemma CreatedKeepsNames(st: Store, name: string, role: string, json: map<string, Json>,
                          parentName: Option<string>, oldBrotherName: Option<string>)
    requires FirstAt(st.rows, ByNameRole(name, role)).None?
    ensures var r := Created(st, name, role, json, parentName, oldBrotherName);
      forall k :: 0 <= k < |st.rows| ==> r.rows[k].name == st.rows[k].name && r.rows[k].role == st.rows[k].role
  {
  }

  /** A put keeps the table valid. */
  lemma PutValid(st: Store, name: string, role: string, json: map<string, Json>,
                 parentName: Option<string>, oldBrotherName: Option<string>)
    requires Valid(st)
    ensures Valid(Put(st, name, role, json, parentName, oldBrotherName).st)
  {
    if parentName.Some? || oldBrotherName.Some? {
      var c := DeleteRoute(st, name, role, |st.rows| + 1);
      DeleteKeeps(st, name, role, |st.rows| + 1);
      CreatedValid(c.st, name, role, json, parentName, oldBrotherName);
    }
  }

  /** Without a new place only the route's ui_route is replaced, and a
      missing route raises. */
  lemma PutInPlace(st: Store, name: string, role: string, json: map<string, Json>)
    ensures FirstAt(st.rows, ByNameRole(name, role)).None? ==>
      Put(st, name, role, json, None, None) == Change(st, Fail(Crash(UiRouteOfNone)))
    ensures FirstAt(st.rows, ByNameRole(name, role)).Some? ==>
      var i := FirstAt(st.rows, ByNameRole(name, role)).value;
      var c := Put(st, name, role, json, None, None);
      c.outcome == Pass && c.st.nextId == st.nextId && |c.st.rows| == |st.rows| &&
      c.st.rows[i] == st.rows[i].(uiRoute := json) &&
      forall k :: 0 <= k < |st.rows| && k != i ==> c.st.rows[k] == st.rows[k]
  {
  }

  /** With a new place, a successful put leaves exactly one route of that
      name and role, the last row, carrying the new ui_route. */
  lemma PutMoved(st: Store, name: string, role: string, json: map<string, Json>,
                 parentName: Option<string>, oldBrotherName: Option<string>)
    requires SameNameSameId(st.rows)
    requires parentName.Some? || oldBrotherName.Some?
    requires Put(st, name, role, json, parentName, oldBrotherName).outcome.Pass?
    ensures var r := Put(st, name, role, json, parentName, oldBrotherName).st.rows;
      |r| > 0 && r[|r| - 1].name == name && r[|r| - 1].role == role && r[|r| - 1].uiRoute == json &&
      forall k :: 0 <= k < |r| - 1 ==> !(r[k].name == name && r[k].role == role)
  {
    var c := DeleteRoute(st, name, role, |st.rows| + 1);
    assert Put(st, name, role, json, parentName, oldBrotherName).st == Created(c.st, name, role, json, parentName, oldBrotherName);
    DeleteRemoves(st, name, role, |st.rows| + 1);
    CreatedOnly(c.st, name, role, json, parentName, oldBrotherName);
  }

  /** Creating a route that is not there yet leaves it as the only route of
      that name and role, in the last row, with the given ui_route. */
  lemma CreatedOnly(st: Store, name: string, role: string, json: map<string, Json>,
                    parentName: Option<string>, oldBrotherName: Option<string>)
    requires FirstAt(st.rows, ByNameRole(name, role)).None?
    ensures var r := Created(st, name, role, json, parentName, oldBrotherName).rows;
      |r| > 0 && r[|r| - 1].name == name && r[|r| - 1].role == role && r[|r| - 1].uiRoute == json &&
      forall k :: 0 <= k < |r| - 1 ==> !(r[k].name == name && r[k].role == role)
  {
    FirstAtIsFirst(st.rows, ByNameRole(name, role));
    CreatedKeepsNames(st, name, role, json, parentName, oldBrotherName);
  }

  /** `rename_ui_route`: the first route of that name and role gets the new
      name in its column and in its ui_route; nothing changes when there
      is no such route. */
  function Renamed(rows: seq<RouteRow>, oldName: string, newName: string, role: string): (r: seq<RouteRow>)
    ensures |r| == |rows|
    ensures FirstAt(rows, ByNameRole(oldName, role)).None? ==> r == rows
  {
    match FirstAt(rows, ByNameRole(oldName, role))
    case None => rows
    case Some(i) => rows[i := RenamedRow(rows[i], newName)]
  }

  /** The renamed route keeps its id, role and links; its column and its
      ui_route both carry the new name, its other ui_route keys are kept,
      and no other row changes. */
  lemma RenameEffect(rows: seq<RouteRow>, oldName: string, newName: string, role: string)
    requires FirstAt(rows, ByNameRole(oldName, role)).Some?
    ensures var r := Renamed(rows, oldName, newName, role);
      var i := FirstAt(rows, ByNameRole(oldName, role)).value;
      r[i].name == newName && NameKey in r[i].uiRoute && r[i].uiRoute[NameKey] == JStr(newName) &&
      r[i].id == rows[i].id && r[i].role == role && r[i].parent == rows[i].parent && r[i].oldBrother == rows[i].oldBrother &&
      (forall key :: key in rows[i].uiRoute && key != NameKey ==> key in r[i].uiRoute && r[i].uiRoute[key] == rows[i].uiRoute[key]) &&
      (forall key :: key in r[i].uiRoute ==> key == NameKey || key in rows[i].uiRoute) &&
      forall k :: 0 <= k < |rows| && k != i ==> r[k] == rows[k]
  {
  }

  /** `Renamed` on the route found at position `i`. */
  lemma RenamedAt(rows: seq<RouteRow>, oldName: string, newName: string, role: string, i: nat)
    requires FirstAt(rows, ByNameRole(oldName, role)) == Some(i)
    ensures Renamed(rows, oldName, newName, role) == rows[i := RenamedRow(rows[i], newName)]
  {
  }

  /** Writing a row's old value back undoes an update. */
  lemma UpdateRestore(rows: seq<RouteRow>, i: nat, x: RouteRow)
    requires i < |rows|
    ensures rows[i := x][i := rows[i]] == rows
  {
  }

  /** One row with a new name in its column and in its ui_route. */
  function RenamedRow(row: RouteRow, newName: string): RouteRow {
    row.(name := newName, uiRoute := row.uiRoute[NameKey := JStr(newName)])
  }

  lemma RenamedRowBack(row: RouteRow, oldName: string, newName: string)
    requires row.name == oldName && NameKey in row.uiRoute && row.uiRoute[NameKey] == JStr(oldName)
    ensures RenamedRow(RenamedRow(row, newName), oldName) == row
  {
    assert row.uiRoute[NameKey := JStr(newName)][NameKey := JStr(oldName)] == row.uiRoute;
  }

  /** A renamed route is the first of its new name when no route of the
      role had that name before. */
  lemma FirstAfterRename(rows: seq<RouteRow>, i: nat, newName: string, role: string, m: map<string, Json>)
    requires i < |rows| && rows[i].role == role
    requires forall k :: 0 <= k < |rows| ==> !(rows[k].name == newName && rows[k].role == role)
    ensures FirstAt(rows[i := rows[i].(name := newName, uiRoute := m)], ByNameRole(newName, role)) == Some(i)
  {
    var once := rows[i := rows[i].(name := newName, uiRoute := m)];
    FirstAtIsFirst(once, ByNameRole(newName, role));
    assert Fits(once[i], ByNameRole(newName, role));
  }

  /** Renaming a route back restores the table, when its ui_route carried
      its name and no route of the role had the new name yet. */
  lemma RenameBack(rows: seq<RouteRow>, oldName: string, newName: string, role: string, i: nat)
    requires FirstAt(rows, ByNameRole(oldName, role)) == Some(i)
    requires forall k :: 0 <= k < |rows| ==> !(rows[k].name == newName && rows[k].role == role)
    requires NameKey in rows[i].uiRoute && rows[i].uiRoute[NameKey] == JStr(oldName)
    ensures Renamed(Renamed(rows, oldName, newName, role), newName, oldName, role) == rows
  {
    var r1 := RenamedRow(rows[i], newName);
    var once := rows[i := r1];
    assert Renamed(rows, oldName, newName, role) == once by {
      RenamedAt(rows, oldName, newName, role, i);
    }
    assert Renamed(once, newName, oldName, role) == once[i := rows[i]] by {
      FirstAfterRename(rows, i, newName, role, r1.uiRoute);
      RenamedAt(once, newName, oldName, role, i);
      RenamedRowBack(rows[i], oldName, newName);
    }
    UpdateRestore(rows, i, r1);
  }

  // ---------------------------------------------------------------------
  // insert_into_ui_route_table
  // ---------------------------------------------------------------------

  /** The role of a route entry: `meta["roles"][0]`, or "" when the entry
      has no meta or its meta has no roles. Python's `in` on a string meta
      is a substring test and on a list meta a membership test; either
      way, when it succeeds the subscription that follows raises. */
  function RoleOf(m: map<string, Json>): (r: Result<string>)
    ensures MetaKey !in m ==> r == Ok("")
    ensures MetaKey in m && m[MetaKey].JObj? && RolesKey !in m[MetaKey].fields ==> r == Ok("")
    ensures MetaKey in m && m[MetaKey].JObj? && RolesKey in m[MetaKey].fields && m[MetaKey].fields[RolesKey].JList? ==>
      var roles := m[MetaKey].fields[RolesKey].items;
      (|roles| == 0 ==> r == Err(Crash(IndexMessage))) &&
      (|roles| > 0 && roles[0].JStr? ==> r == Ok(roles[0].s))
  {
    if MetaKey !in m then Ok("")
    else match m[MetaKey]
      case JObj(meta) => if RolesKey !in meta then Ok("") else FirstRole(meta[RolesKey])
      case JList(items) => if JStr(RolesKey) in items then Err(Crash(TypeMessage)) else Ok("")
      case JStr(s) => if Contains(s, RolesKey) then Err(Crash(TypeMessage)) else Ok("")
      case _ => Err(Crash(TypeMessage))
  }

  /** `roles[0]`, which the role column stores. */
  function FirstRole(roles: Json): Result<string> {
    match roles
    case JList(items) =>
      if |items| == 0 then Err(Crash(IndexMessage))
      else if items[0].JStr? then Ok(items[0].s)
      else Err(Crash(TypeMessage))
    case JStr(s) => if |s| == 0 then Err(Crash(IndexMessage)) else Ok([s[0]])
    case _ => Err(Crash(TypeMessage))
  }

  /** `entry["name"]` of a route entry. */
  function NameOf(d: Json): (r: Result<string>)
    ensures r.Ok? <==> d.JObj? && NameKey in d.fields && d.fields[NameKey].JStr?
    ensures r.Ok? ==> r.value == d.fields[NameKey].s
  {
    if !d.JObj? then Err(Crash(TypeMessage))
    else if NameKey !in d.fields then Err(Crash(NameKeyMessage))
    else if d.fields[NameKey].JStr? then Ok(d.fields[NameKey].s)
    else Err(Crash(TypeMessage))
  }

  /** The entries of a `children` value: a list's items; an empty string or
      object has none; anything else raises in `len` or in the subscription. */
  function ChildrenOf(c: Json): (r: Result<seq<Json>>)
    ensures r.Ok? ==> forall k :: 0 <= k < |r.value| ==> r.value[k] < c
    ensures c.JList? ==> r == Ok(c.items)
  {
    match c
    case JList(items) => Ok(items)
    case JObj(m) => if |m| == 0 then Ok([]) else Err(Crash(TypeMessage))
    case JStr(s) => if |s| == 0 then Ok([]) else Err(Crash(TypeMessage))
    case _ => Err(Crash(TypeMessage))
  }

  /** The parent or old brother lookup of `insert_into_ui_route_table`: 0
      for the empty name or a name with no route of the role. */
  function LookupId(rows: seq<RouteRow>, name: string, role: string): (r: int)
    ensures name == "" ==> r == 0
  {
    if name == "" then 0
    else match FirstAt(rows, ByNameRole(name, role))
      case None => 0
      case Some(k) => rows[k].id
  }

  /** `insert_into_ui_route_table(entry, parent_name, old_brother_name)`:
      the entry is stored without its children, under its parent and after
      its old brother, unless a route of its name and role exists; then its
      children are inserted in order, each after the one before it. */
  function InsertRoute(st: Store, d: Json, parentName: string, oldBrotherName: string): (r: Change)
    ensures r.outcome.Pass? ==> d.JObj? && RoleOf(d.fields).Ok? && NameOf(d).Ok?
    decreases d, 1, 0
  {
    if !d.JObj? then Change(st, Fail(Crash(TypeMessage)))
    else match RoleOf(d.fields)
      case Err(e) => Change(st, Fail(e))
      case Ok(role) =>
        match NameOf(d)
        case Err(e) => Change(st, Fail(e))
        case Ok(name) =>
          var p := LookupId(st.rows, parentName, role);
          var b := LookupId(st.rows, oldBrotherName, role);
          var st1 := if Count(st.rows, ByNameRole(name, role)) == 0
            then Added(st, name, role, p, b, d.fields - {ChildrenKey}) else st;
          if ChildrenKey !in d.fields then Change(st1, Pass)
          else match ChildrenOf(d.fields[ChildrenKey])
            case Err(e) => Change(st1, Fail(e))
            case Ok(items) => InsertChildren(st1, d, items, name, 0)
  }

  /** The children `items[j..]` of the entry `d`, named `name`, inserted in
      order; the first child has no old brother, every other one follows
      the child before it. */
  function InsertChildren(st: Store, d: Json, items: seq<Json>, name: string, j: nat): Change
    requires forall k :: 0 <= k < |items| ==> items[k] < d
    decreases d, 0, |items| - j
  {
    if j >= |items| then Change(st, Pass)
    else match (if j == 0 then Ok("") else NameOf(items[j - 1]))
      case Err(e) => Change(st, Fail(e))
      case Ok(prev) =>
        var c := InsertRoute(st, items[j], name, prev);
        if c.outcome.Fail? then c else InsertChildren(c.st, d, items, name, j + 1)
  }

  /** Appending a row whose links are old ids keeps the table valid. */
  lemma AddedValid(st: Store, name: string, role: string, parent: int, oldBrother: int, uiRoute: map<string, Json>)
    requires Valid(st) && parent < st.nextId && oldBrother < st.nextId
    ensures Valid(Added(st, name, role, parent, oldBrother, uiRoute))
  {
  }

  /** Loading a route only appends rows: the table's rows stay as they
      were, the ids go up, and the table stays valid. */
  lemma {:induction false} InsertRouteGrows(st: Store, d: Json, parentName: string, oldBrotherName: string)
    ensures var c := InsertRoute(st, d, parentName, oldBrotherName);
      |st.rows| <= |c.st.rows| && c.st.rows[..|st.rows|] == st.rows && st.nextId <= c.st.nextId
    ensures Valid(st) ==> Valid(InsertRoute(st, d, parentName, oldBrotherName).st)
    decreases d, 1, 0
  {
    if d.JObj? && RoleOf(d.fields).Ok? && NameOf(d).Ok? {
      var role := RoleOf(d.fields).value;
      var name := NameOf(d).value;
      var p := LookupId(st.rows, parentName, role);
      var b := LookupId(st.rows, oldBrotherName, role);
      var st1 := if Count(st.rows, ByNameRole(name, role)) == 0
        then Added(st, name, role, p, b, d.fields - {ChildrenKey}) else st;
      assert st1.rows[..|st.rows|] == st.rows;
      assert Valid(st) ==> Valid(st1) by {
        if Valid(st) {
          AddedValid(st, name, role, p, b, d.fields - {ChildrenKey});
        }
      }
      if ChildrenKey in d.fields && ChildrenOf(d.fields[ChildrenKey]).Ok? {
        var items := ChildrenOf(d.fields[ChildrenKey]).value;
        InsertChildrenGrows(st1, d, items, name, 0);
        var c := InsertChildren(st1, d, items, name, 0);
        assert c.st.rows[..|st.rows|] == c.st.rows[..|st1.rows|][..|st.rows|];
      }
    }
  }

  lemma {:induction false} InsertChildrenGrows(st: Store, d: Json, items: seq<Json>, name: string, j: nat)
    requires forall k :: 0 <= k < |items| ==> items[k] < d
    ensures var c := InsertChildren(st, d, items, name, j);
      |st.rows| <= |c.st.rows| && c.st.rows[..|st.rows|] == st.rows && st.nextId <= c.st.nextId
    ensures Valid(st) ==> Valid(InsertChildren(st, d, items, name, j).st)
    decreases d, 0, |items| - j
  {
    if j < |items| && (j == 0 || NameOf(items[j - 1]).Ok?) {
      var prev := if j == 0 then "" else NameOf(items[j - 1]).value;
      var c := InsertRoute(st, items[j], name, prev);
      InsertRouteGrows(st, items[j], name, prev);
      if c.outcome.Pass? {
        InsertChildrenGrows(c.st, d, items, name, j + 1);
        var c2 := InsertChildren(c.st, d, items, name, j + 1);
        assert c2.st.rows[..|st.rows|] == c2.st.rows[..|c.st.rows|][..|st.rows|];
      }
    }
  }

  /** A route of a new name and role is stored, without its children, as
      the next row, under the parent and after the old brother found by
      name (0 for none); whatever its children do comes after it. */
  lemma InsertStoresRoute(st: Store, d: Json, parentName: string, oldBrotherName: string)
    requires d.JObj? && RoleOf(d.fields).Ok? && NameOf(d).Ok?
    requires Count(st.rows, ByNameRole(NameOf(d).value, RoleOf(d.fields).value)) == 0
    ensures var c := InsertRoute(st, d, parentName, oldBrotherName);
      var role := RoleOf(d.fields).value;
      |c.st.rows| > |st.rows| &&
      c.st.rows[|st.rows|] == RouteRow(st.nextId, NameOf(d).value, role,
        LookupId(st.rows, parentName, role), LookupId(st.rows, oldBrotherName, role), d.fields - {ChildrenKey}) &&
      ChildrenKey !in c.st.rows[|st.rows|].uiRoute
  {
    var role := RoleOf(d.fields).value;
    var name := NameOf(d).value;
    var st1 := Added(st, name, role, LookupId(st.rows, parentName, role), LookupId(st.rows, oldBrotherName, role), d.fields - {ChildrenKey});
    if ChildrenKey in d.fields && ChildrenOf(d.fields[ChildrenKey]).Ok? {
      var items := ChildrenOf(d.fields[ChildrenKey]).value;
      InsertChildrenGrows(st1, d, items, name, 0);
      var c := InsertChildren(st1, d, items, name, 0);
      assert c.st.rows[|st.rows|] == c.st.rows[..|st1.rows|][|st.rows|];
    }
  }

  /** A route whose name and role already exist, and which has no
      children, changes nothing. */
  lemma InsertSkipsExisting(st: Store, d: Json, parentName: string, oldBrotherName: string)
    requires d.JObj? && RoleOf(d.fields).Ok? && NameOf(d).Ok? && ChildrenKey !in d.fields
    requires exists k :: 0 <= k < |st.rows| && st.rows[k].name == NameOf(d).value && st.rows[k].role == RoleOf(d.fields).value
    ensures InsertRoute(st, d, parentName, oldBrotherName) == Change(st, Pass)
  {
    var k :| 0 <= k < |st.rows| && st.rows[k].name == NameOf(d).value && st.rows[k].role == RoleOf(d.fields).value;
    MatchingMembers(st.rows, ByNameRole(NameOf(d).value, RoleOf(d.fields).value));
    assert st.rows[k] in Matching(st.rows, ByNameRole(NameOf(d).value, RoleOf(d.fields).value));
  }

  // A route "a" with children "b" and "c", and the table after each step
  // of loading it into an empty table.
  const ExB: map<string, Json> := map[NameKey := JStr("b")]
  const ExC: map<string, Json> := map[NameKey := JStr("c")]
  const ExItems: seq<Json> := [JObj(ExB), JObj(ExC)]
  const ExA: map<string, Json> := map[NameKey := JStr("a"), ChildrenKey := JList(ExItems)]
  const ExRowA: RouteRow := RouteRow(1, "a", "", 0, 0, map[NameKey := JStr("a")])
  const ExRowB: RouteRow := RouteRow(2, "b", "", 1, 0, ExB)
  const ExRowC: RouteRow := RouteRow(3, "c", "", 1, 2, ExC)

  lemma ExampleTop()
    ensures InsertRoute(Store([], 1), JObj(ExA), "", "") == InsertChildren(Store([ExRowA], 2), JObj(ExA), ExItems, "a", 0)
  {
    assert MetaKey !in ExA && RoleOf(ExA) == Ok("") && NameOf(JObj(ExA)) == Ok("a");
    assert ChildrenKey in ExA && ExA[ChildrenKey] == JList(ExItems);
    assert ExA - {ChildrenKey} == map[NameKey := JStr("a")];
    assert LookupId([], "", "") == 0 && Count([], ByNameRole("a", "")) == 0;
    assert Added(Store([], 1), "a", "", 0, 0, ExA - {ChildrenKey}) == Store([ExRowA], 2);
  }

  lemma ExampleFirstChild()
    ensures InsertRoute(Store([ExRowA], 2), JObj(ExB), "a", "") == Change(Store([ExRowA, ExRowB], 3), Pass)
  {
    assert MetaKey !in ExB && RoleOf(ExB) == Ok("") && NameOf(JObj(ExB)) == Ok("b") && ChildrenKey !in ExB;
    assert ExB - {ChildrenKey} == ExB;
    assert FirstAt([ExRowA], ByNameRole("a", "")) == Some(0);
    assert Count([ExRowA], ByNameRole("b", "")) == 0;
  }

  lemma ExampleSecondChild()
    ensures InsertRoute(Store([ExRowA, ExRowB], 3), JObj(ExC), "a", "b") == Change(Store([ExRowA, ExRowB, ExRowC], 4), Pass)
  {
    var rows := [ExRowA, ExRowB];
    assert MetaKey !in ExC && RoleOf(ExC) == Ok("") && NameOf(JObj(ExC)) == Ok("c") && ChildrenKey !in ExC;
    assert ExC - {ChildrenKey} == ExC;
    assert FirstAt(rows, ByNameRole("a", "")) == Some(0);
    assert FirstAt(rows[1..], ByNameRole("b", "")) == Some(0);
    assert rows[1..][1..] == [];
    assert Matching(rows[1..], ByNameRole("c", "")) == [];
  }

  /** Loading "a" with children "b" and "c" into an empty table: "b" is
      the first child of "a", and "c" follows "b". */
  lemma InsertLinksChildren()
    ensures InsertRoute(Store([], 1), JObj(ExA), "", "") == Change(Store([ExRowA, ExRowB, ExRowC], 4), Pass)
  {
    ExampleTop();
    ExampleFirstChild();
    ExampleSecondChild();
    assert NameOf(ExItems[0]) == Ok("b");
    var st3 := Store([ExRowA, ExRowB, ExRowC], 4);
    assert InsertChildren(st3, JObj(ExA), ExItems, "a", 2) == Change(st3, Pass);
    assert InsertChildren(Store([ExRowA, ExRowB], 3), JObj(ExA), ExItems, "a", 1) == Change(st3, Pass);
  }

  // ---------------------------------------------------------------------
  // The table
  // ---------------------------------------------------------------------

  /** The UIRouteData table as the migrations change it. */
  class RouteStore {
    var rows: seq<RouteRow>
    var nextId: int

    constructor (rows: seq<RouteRow>, nextId: int)
      ensures this.rows == rows && this.nextId == nextId
    {
      this.rows := rows;
      this.nextId := nextId;
    }

    function State(): Store
      reads this
    {
      Store(rows, nextId)
    }

    /** `db.session.add` of a new row: it gets the next id. */
    method AddRow(name: string, role: string, parent: int, oldBrother: int, uiRoute: map<string, Json>) returns (id: int)
      modifies this
      ensures State() == Added(old(State()), name, role, parent, oldBrother, uiRoute)
      ensures id == old(nextId)
    {
      id := nextId;
      rows := rows + [RouteRow(id, name, role, parent, oldBrother, uiRoute)];
      nextId := nextId + 1;
    }

    /** `create_ui_route_object`. */
    method CreateUiRouteObject(name: string, role: string, json: map<string, Json>,
                               parentName: Option<string>, oldBrotherName: Option<string>)
      modifies this
      ensures State() == Created(old(State()), name, role, json, parentName, oldBrotherName)
    {
      var row := FirstAt(rows, ByNameRole(name, role));
      if row.Some? {
        return;
      }
      var parentId := RouteId(rows, role, parentName);
      var oldBrotherId := RouteId(rows, role, oldBrotherName);
      var origin := FirstAt(rows, Filter(None, None, Some(role), Some(parentId), Some(oldBrotherId)));
      if oldBrotherId == 0 {
        var id := AddRow(name, role, parentId, 0, json);
        if origin.Some? {
          rows := rows[origin.value := rows[origin.value].(oldBrother := id)];
        }
      } else if origin.None? {
        var id := AddRow(name, role, parentId, oldBrotherId, json);
      } else {
        var id := AddRow(name, role, parentId, oldBrotherId, json);
        rows := rows[origin.value := rows[origin.value].(oldBrother := id)];
      }
    }

    /** `delete_ui_route_object`, allowed `fuel` nested calls. */
    method DeleteUiRouteObject(name: string, role: string, fuel: nat) returns (r: Outcome)
      modifies this
      ensures Change(State(), r) == DeleteRoute(old(State()), name, role, fuel)
      decreases fuel, 0
    {
      if fuel == 0 {
        return Fail(Crash(RecursionMessage));
      }
      var found := FirstAt(rows, ByNameRole(name, role));
      if found.None? {
        return Fail(Crash(OldBrotherOfNone));
      }
      var routeRow := rows[found.value];
      var youngBrother := YoungBrother(rows, role, routeRow.id);
      r := DeleteChildren(Children(rows, role, routeRow.id), role, fuel - 1);
      if r.Pass? {
        Unlink(routeRow.id, routeRow.oldBrother, youngBrother);
      }
    }

    /** The loop over the child routes of `delete_ui_route_object`. */
    method DeleteChildren(kids: seq<RouteRow>, role: string, fuel: nat) returns (r: Outcome)
      modifies this
      ensures Change(State(), r) == DeleteEach(old(State()), kids, role, fuel)
      decreases fuel, 1
    {
      for k := 0 to |kids|
        invariant DeleteEach(State(), kids[k..], role, fuel) == DeleteEach(old(State()), kids, role, fuel)
      {
        assert kids[k..][1..] == kids[k + 1..];
        var o := DeleteUiRouteObject(kids[k].name, role, fuel);
        if o.Fail? {
          return o;
        }
      }
      r := Pass;
    }

    /** The row deletion and the relinking of the younger brother. */
    method Unlink(id: int, oldBrotherId: int, youngBrother: Option<int>)
      modifies this
      ensures State() == Unlinked(old(State()), id, oldBrotherId, youngBrother)
    {
      rows := RemoveId(rows, id);
      if oldBrotherId == 0 {
        if youngBrother.Some? {
          rows := SetOldBrother(rows, youngBrother.value, 0);
        }
      } else if youngBrother.None? {
      } else {
        rows := SetOldBrother(rows, youngBrother.value, oldBrotherId);
      }
    }

    /** `put_ui_route_object`. */
    method PutUiRouteObject(name: string, role: string, json: map<string, Json>,
                            parentName: Option<string>, oldBrotherName: Option<string>) returns (r: Outcome)
      modifies this
      ensures Change(State(), r) == Put(old(State()), name, role, json, parentName, oldBrotherName)
    {
      if parentName.Some? || oldBrotherName.Some? {
        r := DeleteUiRouteObject(name, role, |rows| + 1);
        if r.Fail? {
          return;
        }
        CreateUiRouteObject(name, role, json, parentName, oldBrotherName);
      } else {
        var routeRow := FirstAt(rows, ByNameRole(name, role));
        if routeRow.None? {
          return Fail(Crash(UiRouteOfNone));
        }
        rows := rows[routeRow.value := rows[routeRow.value].(uiRoute := json)];
        r := Pass;
      }
    }

    /** `rename_ui_route`. */
    method RenameUiRoute(oldName: string, newName: string, role: string)
      modifies this
      ensures rows == Renamed(old(rows), oldName, newName, role) && nextId == old(nextId)
    {
      var routeRow := FirstAt(rows, ByNameRole(oldName, role));
      if routeRow.Some? {
        var i := routeRow.value;
        rows := rows[i := rows[i].(name := newName, uiRoute := rows[i].uiRoute[NameKey := JStr(newName)])];
      }
    }

    /** `insert_into_ui_route_table`. */
    method InsertIntoUiRouteTable(d: Json, parentName: string, oldBrotherName: string) returns (r: Outcome)
      modifies this
      ensures Change(State(), r) == InsertRoute(old(State()), d, parentName, oldBrotherName)
      decreases d, 1
    {
      if !d.JObj? {
        return Fail(Crash(TypeMessage));
      }
      var role := RoleOf(d.fields);
      if role.Err? {
        return Fail(role.error);
      }
      var parentId := LookupId(rows, parentName, role.value);
      var oldBrotherId := LookupId(rows, oldBrotherName, role.value);
      var name := NameOf(d);
      if name.Err? {
        return Fail(name.error);
      }
      if Count(rows, ByNameRole(name.value, role.value)) == 0 {
        var id := AddRow(name.value, role.value, parentId, oldBrotherId, d.fields - {ChildrenKey});
      }
      if ChildrenKey in d.fields {
        var children := ChildrenOf(d.fields[ChildrenKey]);
        if children.Err? {
          return Fail(children.error);
        }
        r := InsertChildList(d, children.value, name.value);
      } else {
        r := Pass;
      }
    }

    /** The loop over the children of `insert_into_ui_route_table`. */
    method InsertChildList(d: Json, items: seq<Json>, name: string) returns (r: Outcome)
      requires forall k :: 0 <= k < |items| ==> items[k] < d
      modifies this
      ensures Change(State(), r) == InsertChildren(old(State()), d, items, name, 0)
      decreases d, 0
    {
      var j := 0;
      while j < |items|
        invariant j <= |items|
        invariant InsertChildren(State(), d, items, name, j) == InsertChildren(old(State()), d, items, name, 0)
      {
        var prev := if j == 0 then Ok("") else NameOf(items[j - 1]);
        if prev.Err? {
          return Fail(prev.error);
        }
        r := InsertIntoUiRouteTable(items[j], name, prev.value);
        if r.Fail? {
          return;
        }
        j := j + 1;
      }
      r := Pass;
    }
  }
}
