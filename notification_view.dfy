/** The argument check of `apis/urls/notification_message/view.py`
    (`parameter_check`) for a new notification message: the alert level, the
    recipient type ids and the recipient parameters each type needs. The
    `type_parameters` JSON text is modelled by the set of keys it decodes to,
    `None` when the argument is absent. */
module NotificationView {
  import opened Wrappers

  const AlertLevels: set<int> := {1, 2, 3, 101, 102, 103, 301}

  const AlertLevelRange := DevOps(400, "Argument alert_level not in range.")
  const TypeIdRange := DevOps(400, "Argument type_id not in range.")
  const MissingParameters := DevOps(400, "Missing type_parameters")
  const MissingProjects := DevOps(400, "Argument project_ids not exist in type_parameters.")
  const MissingUsers := DevOps(400, "Argument user_id not exist in type_parameters.")
  const MissingRoles := DevOps(400, "Argument role_ids not exist in type_parameters.")

  /** The key a recipient type needs in `type_parameters`, if any: projects
      for types 2 and 5, users for 3, roles for 4. */
  function NeededKey(typeId: int): Option<string> {
    if typeId == 2 || typeId == 5 then Some("project_ids")
    else if typeId == 3 then Some("user_ids")
    else if typeId == 4 then Some("role_ids")
    else None
  }

  /** The check of one type id. */
  function TypeCheck(typeId: int, params: Option<set<string>>): (r: Outcome)
    ensures r.Pass? <==> 1 <= typeId <= 5 && (typeId >= 2 ==> params.Some?) &&
                         (NeededKey(typeId).Some? ==> params.Some? && NeededKey(typeId).value in params.value)
    ensures !(1 <= typeId <= 5) ==> r == Fail(TypeIdRange)
    ensures 2 <= typeId <= 5 && params.None? ==> r == Fail(MissingParameters)
  {
    if !(1 <= typeId < 6) then Fail(TypeIdRange)
    else if 2 <= typeId < 6 && params.None? then Fail(MissingParameters)
    else if (typeId == 2 || typeId == 5) && "project_ids" !in params.value then Fail(MissingProjects)
    else if typeId == 3 && "user_ids" !in params.value then Fail(MissingUsers)
    else if typeId == 4 && "role_ids" !in params.value then Fail(MissingRoles)
    else Pass
  }

  /** The loop over the type ids: the first failing id raises. */
  function TypesCheck(typeIds: seq<int>, params: Option<set<string>>): (r: Outcome)
  {
    if typeIds == [] then Pass
    else match TypeCheck(typeIds[0], params)
      case Fail(e) => Fail(e)
      case Pass => TypesCheck(typeIds[1..], params)
  }

  /** `parameter_check`. */
  function ParameterCheck(alertLevel: Option<int>, typeIds: seq<int>, params: Option<set<string>>): (r: Outcome)
    ensures alertLevel.None? || alertLevel.value !in AlertLevels ==> r == Fail(AlertLevelRange)
  {
    if alertLevel.None? || alertLevel.value !in AlertLevels then Fail(AlertLevelRange)
    else TypesCheck(typeIds, params)
  }

  /** The loop passes exactly when every id passes, and otherwise raises the
      error of the first id that fails. */
  lemma {:induction false} TypesCheckFirst(typeIds: seq<int>, params: Option<set<string>>)
    ensures TypesCheck(typeIds, params).Pass? <==>
              forall k :: 0 <= k < |typeIds| ==> TypeCheck(typeIds[k], params).Pass?
    ensures forall k :: 0 <= k < |typeIds| && TypeCheck(typeIds[k], params).Fail? &&
                        (forall j :: 0 <= j < k ==> TypeCheck(typeIds[j], params).Pass?) ==>
              TypesCheck(typeIds, params) == TypeCheck(typeIds[k], params)
  {
    if typeIds != [] {
      TypesCheckFirst(typeIds[1..], params);
      assert forall k :: 0 < k < |typeIds| ==> typeIds[1..][k - 1] == typeIds[k];
    }
  }

  /** A message is accepted exactly when its alert level is one of the seven
      known ones and every type id is between 1 and 5 with the parameters
      its type needs. */
  lemma ParameterCheckMeaning(alertLevel: Option<int>, typeIds: seq<int>, params: Option<set<string>>)
    ensures ParameterCheck(alertLevel, typeIds, params).Pass? <==>
              alertLevel.Some? && alertLevel.value in AlertLevels &&
              forall k :: 0 <= k < |typeIds| ==>
                1 <= typeIds[k] <= 5 && (typeIds[k] >= 2 ==> params.Some?) &&
                (NeededKey(typeIds[k]).Some? ==> params.Some? && NeededKey(typeIds[k]).value in params.value)
  {
    TypesCheckFirst(typeIds, params);
  }

  /** A message sent to everybody (every type id is 1) needs no parameters. */
  lemma BroadcastNeedsNoParameters(alertLevel: int, typeIds: seq<int>)
    requires alertLevel in AlertLevels
    requires forall k :: 0 <= k < |typeIds| ==> typeIds[k] == 1
    ensures ParameterCheck(Some(alertLevel), typeIds, None) == Pass
  {
    ParameterCheckMeaning(Some(alertLevel), typeIds, None);
  }

  /** Types 2 to 5 without parameters are refused with "Missing type_parameters"
      when they are the first id to fail. */
  lemma MissingParametersRefused(alertLevel: int, typeId: int)
    requires alertLevel in AlertLevels && 2 <= typeId <= 5
    ensures ParameterCheck(Some(alertLevel), [1, typeId], None) == Fail(MissingParameters)
  {
    TypesCheckFirst([1, typeId], None);
  }
}
