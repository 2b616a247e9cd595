/** The role table and permission gates of `apis/resources/role.py`. The
    caller's identity (user id and role id from the JWT) is a parameter. */
module Role {
  import opened Wrappers
  import Util
  import Strs

  datatype RoleInfo = RoleInfo(id: int, name: string)

  const Rd := RoleInfo(1, "Engineer")
  const Pm := RoleInfo(3, "Project Manager")
  const Admin := RoleInfo(5, "Administrator")
  const Bot := RoleInfo(6, "Project BOT")
  const Qa := RoleInfo(7, "QA")
  /** RD and QA are commented out of ALL_ROLES. */
  const AllRoles := [Pm, Admin, Bot]

  const UnknownRole := "Unknown Role"

  /** The caller as the JWT identity describes them. */
  datatype Identity = Identity(userId: int, roleId: int)

  // ---------------------------------------------------------------------
  // get_role_name
  // ---------------------------------------------------------------------

  /** The name of the first role of `roles` with this id. */
  function NameIn(roles: seq<RoleInfo>, roleId: int): (r: string)
    ensures (forall k :: 0 <= k < |roles| ==> roles[k].id != roleId) ==> r == UnknownRole
    ensures forall k :: (0 <= k < |roles| && roles[k].id == roleId &&
                         forall j :: 0 <= j < k ==> roles[j].id != roleId) ==> r == roles[k].name
  {
    if roles == [] then UnknownRole
    else if roles[0].id == roleId then roles[0].name
    else NameIn(roles[1..], roleId)
  }

  function GetRoleName(roleId: int): (r: string)
    ensures r == UnknownRole <==> roleId !in {3, 5, 6}
  {
    assert AllRoles[0].id == 3 && AllRoles[1].id == 5 && AllRoles[2].id == 6;
    assert forall k :: 0 <= k < |AllRoles| ==> AllRoles[k].name != UnknownRole;
    NameIn(AllRoles, roleId)
  }

  /** Only PM, ADMIN and BOT have names; RD (1), QA (7) and every other id
      are an unknown role. */
  lemma RoleNames(roleId: int)
    ensures GetRoleName(3) == "Project Manager"
    ensures GetRoleName(5) == "Administrator"
    ensures GetRoleName(6) == "Project BOT"
    ensures roleId !in {3, 5, 6} ==> GetRoleName(roleId) == UnknownRole
    ensures GetRoleName(Rd.id) == UnknownRole && GetRoleName(Qa.id) == UnknownRole
  {
    assert AllRoles[0].id == 3 && AllRoles[1].id == 5 && AllRoles[2].id == 6;
  }

  // ---------------------------------------------------------------------
  // require_role, require_admin, require_pm
  // ---------------------------------------------------------------------

  /** The `allowed_roles` argument: a single id or a list of ids. */
  datatype Allowed = One(id: int) | Many(ids: seq<int>)

  const RoleMessage := "Your role does not have the permission for this operation."

  /** Whether the caller's role is among the allowed ones, scanning the list. */
  function Listed(ids: seq<int>, roleId: int): (r: bool)
    ensures r <==> roleId in ids
  {
    if ids == [] then false
    else if ids[0] == roleId then true
    else Listed(ids[1..], roleId)
  }

  function AllowedIds(allowed: Allowed): seq<int> {
    match allowed
    case One(i) => [i]
    case Many(ids) => ids
  }

  /** `require_role`: passes exactly when the caller's role is allowed, and
      raises NotAllowedError with the given message otherwise. */
  function RequireRole(allowed: Allowed, me: Identity, errMessage: string): (r: Outcome)
    ensures r.Pass? <==> me.roleId in AllowedIds(allowed)
    ensures r.Fail? ==> r.error == NotAllowed(errMessage)
    ensures allowed.One? ==> (r.Pass? <==> me.roleId == allowed.id)
  {
    if Listed(AllowedIds(allowed), me.roleId) then Pass else Fail(NotAllowed(errMessage))
  }

  /** `require_admin`. */
  function RequireAdmin(me: Identity, errMessage: string): (r: Outcome)
    ensures r.Pass? <==> me.roleId == Admin.id
  {
    RequireRole(Many([Admin.id]), me, errMessage)
  }

  /** The list `require_pm` builds. */
  function PmRoles(excludeAdmin: bool, excludeQa: bool): seq<int> {
    [Pm.id] + (if !excludeAdmin then [Admin.id] else []) + (if !excludeQa then [Qa.id] else [])
  }

  /** `require_pm`: PM always, ADMIN unless excluded, QA unless excluded. */
  function RequirePm(me: Identity, errMessage: string, excludeAdmin: bool, excludeQa: bool): (r: Outcome)
    ensures r.Pass? <==> me.roleId == Pm.id || (!excludeAdmin && me.roleId == Admin.id) ||
                         (!excludeQa && me.roleId == Qa.id)
    ensures r.Fail? ==> r.error == NotAllowed(errMessage)
  {
    RequireRole(Many(PmRoles(excludeAdmin, excludeQa)), me, errMessage)
  }

  // ---------------------------------------------------------------------
  // require_in_project, verify_project_user
  // ---------------------------------------------------------------------

  const InProjectMessage := "You need to be in the project for this operation."

  /** The integer a project reference stands for in the membership query. */
  function ProjectNumber(p: Util.ProjectRef): Option<int> {
    match p
    case IntId(i) => Some(i)
    case StrId(t) => Strs.ParseInt(t)
  }

  /** `verify_project_user`: the dummy project -1 always verifies; otherwise
      the (project, user) pair must be in the project_user_role table. */
  function VerifyProjectUser(p: Util.ProjectRef, userId: int, members: set<(int, int)>): (r: Result<bool>)
    ensures ProjectNumber(p) == Some(-1) ==> r == Ok(true)
    ensures r.Ok? && ProjectNumber(p) != Some(-1) ==>
              r.value == (ProjectNumber(p).Some? && (ProjectNumber(p).value, userId) in members)
    ensures r.Err? <==> ProjectNumber(p).None?
  {
    match Util.IsDummyProject(p)
    case Err(e) => Err(e)
    case Ok(dummy) =>
      if dummy then Ok(true)
      else Ok(match ProjectNumber(p) case Some(n) => (n, userId) in members case None => false)
  }

  /** `require_in_project` once the project id is known: an admin passes
      unless `even_admin`, project -1 always passes, a member passes, and
      everybody else gets NotInProjectError. */
  function RequireInProject(p: Util.ProjectRef, me: Identity, members: set<(int, int)>,
                            errMessage: string, evenAdmin: bool): (r: Outcome)
    ensures !evenAdmin && me.roleId == Admin.id ==> r == Pass
    ensures ProjectNumber(p) == Some(-1) ==> r == Pass
    ensures ProjectNumber(p).Some? && (ProjectNumber(p).value, me.userId) in members ==> r == Pass
    ensures r.Fail? && ProjectNumber(p).Some? ==> r.error == NotInProject(errMessage)
    ensures r.Pass? ==> (!evenAdmin && me.roleId == Admin.id) ||
                        (ProjectNumber(p).Some? &&
                         (ProjectNumber(p).value == -1 || (ProjectNumber(p).value, me.userId) in members))
  {
    if !evenAdmin && me.roleId == Admin.id then Pass
    else match VerifyProjectUser(p, me.userId, members)
      case Err(e) => Fail(e)
      case Ok(ok) => if ok then Pass else Fail(NotInProject(errMessage))
  }

  // ---------------------------------------------------------------------
  // require_user_himself
  // ---------------------------------------------------------------------

  /** The message `require_user_himself` raises when none is given. */
  function HimselfMessage(evenPm: bool, evenAdmin: bool): string {
    if evenAdmin then "Only the user himself can access another user's data."
    else if evenPm then "Only admin can access another user's data."
    else "Only admin and PM can access another user's data."
  }

  /** `require_user_himself`: the user may always reach their own data; for
      another user's data RD is refused, PM when `even_pm` and ADMIN when
      `even_admin`, and every other role passes. */
  function RequireUserHimself(userId: int, me: Identity, errMessage: Option<string>,
                              evenPm: bool, evenAdmin: bool): (r: Outcome)
    ensures me.userId == userId ==> r == Pass
    ensures me.userId != userId ==>
              (r.Fail? <==> me.roleId == Rd.id || (evenPm && me.roleId == Pm.id) ||
                            (evenAdmin && me.roleId == Admin.id))
    ensures r.Fail? ==> r.error.NotUserHimself?
    ensures r.Fail? && errMessage.Some? ==> r.error.message == errMessage.value
  {
    if me.userId == userId then Pass
    else if me.roleId == Rd.id || (evenPm && me.roleId == Pm.id) || (evenAdmin && me.roleId == Admin.id) then
      Fail(NotUserHimself(if errMessage.None? then HimselfMessage(evenPm, evenAdmin) else errMessage.value))
    else Pass
  }

  /** With the default flags (`even_pm`), only an admin or the user may read
      another user's data among RD, PM and ADMIN. */
  lemma HimselfDefaults(userId: int, me: Identity)
    requires me.userId != userId
    ensures RequireUserHimself(userId, me, None, true, false).Pass? <==> me.roleId !in {Rd.id, Pm.id}
    ensures RequireUserHimself(userId, me, None, true, false).Fail? ==>
              RequireUserHimself(userId, me, None, true, false).error.message ==
              "Only admin can access another user's data."
  {
  }

  // ---------------------------------------------------------------------
  // get_user_roles
  // ---------------------------------------------------------------------

  /** One entry of the list; `key` is "value" in option mode and "id" otherwise. */
  datatype RoleEntry = RoleEntry(key: string, id: int, name: string)

  /** `get_user_roles`: every role of ALL_ROLES except BOT, in order. */
  method GetUserRoles(isOption: bool) returns (output: seq<RoleEntry>)
    ensures var key := if isOption then "value" else "id";
      output == [RoleEntry(key, Pm.id, Pm.name), RoleEntry(key, Admin.id, Admin.name)]
    ensures forall k :: 0 <= k < |output| ==> output[k].id != Bot.id
  {
    var key := if isOption then "value" else "id";
    output := [];
    for k := 0 to |AllRoles|
      invariant output == if k == 0 then [] else if k == 1 then [RoleEntry(key, Pm.id, Pm.name)]
                          else [RoleEntry(key, Pm.id, Pm.name), RoleEntry(key, Admin.id, Admin.name)]
    {
      var r := AllRoles[k];
      if r == Bot {
        continue;
      }
      output := output + [RoleEntry(key, r.id, r.name)];
    }
  }

  // ---------------------------------------------------------------------
  // update_role
  // ---------------------------------------------------------------------

  /** A row of the project_user_role table. */
  datatype UserRole = UserRole(projectId: int, userId: int, roleId: int)

  const UserNotFound := DevOps(404, "User not found.")
  const UserInProject := DevOps(400, "User is in a project.")

  /** The indices of the user's rows, in table order. */
  function RowsOf(rows: seq<UserRole>, userId: int): (r: seq<nat>)
    ensures forall k :: 0 <= k < |r| ==> r[k] < |rows| && rows[r[k]].userId == userId
    ensures forall i :: 0 <= i < |rows| && rows[i].userId == userId ==> i in r
    ensures forall a, b :: 0 <= a < b < |r| ==> r[a] < r[b]
  {
    if rows == [] then []
    else
      var rest := RowsOf(rows[..|rows| - 1], userId);
      if rows[|rows| - 1].userId == userId then rest + [|rows| - 1] else rest
  }

  /** `update_role`: the new table, or the error raised. */
  function RoleUpdated(rows: seq<UserRole>, userId: int, newRoleId: int): Result<seq<UserRole>> {
    var mine := RowsOf(rows, userId);
    if |mine| == 0 then Err(UserNotFound)
    else if |mine| > 1 then
      if rows[mine[0]].roleId == newRoleId then Ok(rows) else Err(UserInProject)
    else Ok(rows[mine[0] := rows[mine[0]].(roleId := newRoleId)])
  }

  /** A user without rows is not found. */
  lemma RoleUpdatedMissing(rows: seq<UserRole>, userId: int, newRoleId: int)
    ensures (forall i :: 0 <= i < |rows| ==> rows[i].userId != userId) <==>
            RoleUpdated(rows, userId, newRoleId) == Err(UserNotFound)
  {
    var mine := RowsOf(rows, userId);
    if |mine| > 0 {
      assert rows[mine[0]].userId == userId;
    }
  }

  /** A user in several projects keeps the table as it is when their first
      row already has the new role, and is refused otherwise. */
  lemma RoleUpdatedSeveral(rows: seq<UserRole>, userId: int, newRoleId: int, i: nat, j: nat)
    requires i < j < |rows| && rows[i].userId == userId && rows[j].userId == userId
    requires forall k :: 0 <= k < i ==> rows[k].userId != userId
    ensures RoleUpdated(rows, userId, newRoleId) ==
            if rows[i].roleId == newRoleId then Ok(rows) else Err(UserInProject)
  {
    var mine := RowsOf(rows, userId);
    assert i in mine && j in mine;
    var a :| 0 <= a < |mine| && mine[a] == i;
    var b :| 0 <= b < |mine| && mine[b] == j;
    assert a != b;
  }

  /** A user with exactly one row gets the new role on that row and nothing
      else changes. */
  lemma RoleUpdatedSingle(rows: seq<UserRole>, userId: int, newRoleId: int)
    requires |RowsOf(rows, userId)| == 1
    ensures var i := RowsOf(rows, userId)[0];
      rows[i].userId == userId &&
      (forall k :: 0 <= k < |rows| && k != i ==> rows[k].userId != userId) &&
      RoleUpdated(rows, userId, newRoleId) == Ok(rows[i := rows[i].(roleId := newRoleId)])
  {
  }

  /** The project_user_role table. */
  class RoleTable {
    var rows: seq<UserRole>

    constructor (rows0: seq<UserRole>)
      ensures rows == rows0
    {
      rows := rows0;
    }

    /** `update_role`. */
    method UpdateRole(userId: int, newRoleId: int) returns (r: Outcome)
      modifies this
      ensures RoleUpdated(old(rows), userId, newRoleId).Ok? ==>
                r == Pass && rows == RoleUpdated(old(rows), userId, newRoleId).value
      ensures RoleUpdated(old(rows), userId, newRoleId).Err? ==>
                r == Fail(RoleUpdated(old(rows), userId, newRoleId).error) && rows == old(rows)
    {
      var mine := RowsOf(rows, userId);
      if |mine| == 0 {
        return Fail(UserNotFound);
      }
      if |mine| > 1 {
        if rows[mine[0]].roleId == newRoleId {
          return Pass;
        }
        return Fail(UserInProject);
      }
      rows := rows[mine[0] := rows[mine[0]].(roleId := newRoleId)];
      r := Pass;
    }
  }
}
