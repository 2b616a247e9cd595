/** Notification messages (`apis/resources/notification_message.py`): the
    alert-level table, which messages a user may see, and the creation of
    a message with its recipients, skipped for a repeated system alert. */
module NotificationMessage {
  import opened Wrappers

  datatype AlertLevel = AlertLevel(id: int, name: string, usersCanRead: bool)

  /** `ALL_ALERTS`. */
  const AllAlerts: seq<AlertLevel> := [
    AlertLevel(1, "INFO", true), AlertLevel(2, "WARNING", true), AlertLevel(3, "Urgent", true),
    AlertLevel(101, "New Version", false), AlertLevel(102, "System Alert", false),
    AlertLevel(103, "System Warming", true), AlertLevel(201, "Merge Request", true),
    AlertLevel(301, "GitHub Token Invalid", false)]

  /** What `get_alert_level` returns: the id and name, or "Unknown Alert". */
  datatype AlertInfo = Known(id: int, name: string) | UnknownAlert

  /** The alert ids are distinct, so an id names at most one level. */
  lemma AlertIdsDistinct()
    ensures forall i, j :: 0 <= i < j < |AllAlerts| ==> AllAlerts[i].id != AllAlerts[j].id
  {
  }

  /** `get_alert_level`: the first level with that id. */
  method GetAlertLevel(alertId: int) returns (r: AlertInfo)
    ensures r.UnknownAlert? <==> forall k :: 0 <= k < |AllAlerts| ==> AllAlerts[k].id != alertId
    ensures forall k :: 0 <= k < |AllAlerts| && AllAlerts[k].id == alertId ==>
              r == Known(alertId, AllAlerts[k].name)
  {
    AlertIdsDistinct();
    for i := 0 to |AllAlerts|
      invariant forall k :: 0 <= k < i ==> AllAlerts[k].id != alertId
    {
      if AllAlerts[i].id == alertId {
        return Known(AllAlerts[i].id, AllAlerts[i].name);
      }
    }
    return UnknownAlert;
  }

  /** `get_users_can_read`; `None` for an unknown id. */
  method GetUsersCanRead(alertId: int) returns (r: Option<bool>)
    ensures r.None? <==> forall k :: 0 <= k < |AllAlerts| ==> AllAlerts[k].id != alertId
    ensures forall k :: 0 <= k < |AllAlerts| && AllAlerts[k].id == alertId ==>
              r == Some(AllAlerts[k].usersCanRead)
  {
    AlertIdsDistinct();
    for i := 0 to |AllAlerts|
      invariant forall k :: 0 <= k < i ==> AllAlerts[k].id != alertId
    {
      if AllAlerts[i].id == alertId {
        return Some(AllAlerts[i].usersCanRead);
      }
    }
    return None;
  }

  /** Users may read exactly the general levels 1 to 3, the system warning
      and merge requests; the other system and GitHub alerts are not theirs. */
  lemma UsersCanReadLevels(alertId: int)
    ensures (exists k :: 0 <= k < |AllAlerts| && AllAlerts[k].id == alertId && AllAlerts[k].usersCanRead) <==>
            alertId in {1, 2, 3, 103, 201}
  {
    if alertId in {1, 2, 3, 103, 201} {
      var k := if alertId == 1 then 0 else if alertId == 2 then 1 else if alertId == 3 then 2
               else if alertId == 103 then 5 else 6;
      assert AllAlerts[k].id == alertId && AllAlerts[k].usersCanRead;
    }
  }

  /** A recipient entry of a message: its type and the `type_parameter`
      lists by key ("project_ids", "user_ids", "role_ids"). */
  datatype Recipient = Recipient(typeId: int, params: map<string, seq<int>>)

  /** A row of the message query: the message id and its recipient entry,
      if the outer join found one. */
  datatype Row = Row(messageId: int, recipient: Option<Recipient>)

  /** Who is asking: the user, the role from the token, the projects the
      user has a role in, and each project's owner. */
  datatype Viewer = Viewer(userId: int, roleId: Option<int>, memberProjects: set<int>, owners: map<int, int>)

  const KeyMissing := Crash("KeyError")
  const NoProject := Crash("AttributeError: 'NoneType' object has no attribute 'owner_id'")

  predicate RoleTruthy(roleId: Option<int>) {
    roleId.Some? && roleId.value != 0
  }

  /** The rows already chosen, with `row` added unless it is there. */
  function AddOnce(out: seq<Row>, row: Row): seq<Row> {
    if row in out then out else out + [row]
  }

  predicate AnyIn(ids: seq<int>, wanted: set<int>) {
    exists k :: 0 <= k < |ids| && ids[k] in wanted
  }

  /** The type-5 loop as written: the row once per listed project the user
      owns; a project that does not exist raises. */
  function OwnedAppends(out: seq<Row>, row: Row, pids: seq<int>, v: Viewer): Result<seq<Row>> {
    if pids == [] then Ok(out)
    else
      match OwnedAppends(out, row, pids[..|pids| - 1], v)
      case Err(e) => Err(e)
      case Ok(o) =>
        var pid := pids[|pids| - 1];
        if pid !in v.owners then Err(NoProject)
        else if v.owners[pid] == v.userId then Ok(o + [row])
        else Ok(o)
  }

  /** The projects of the list the user owns. */
  function OwnedIds(v: Viewer): set<int> {
    set p | p in v.owners && v.owners[p] == v.userId
  }

  /** The rows the user may see: broadcasts, the user's projects, the user,
      the user's role (when the token has one), projects the user owns. */
  predicate Visible(row: Row, v: Viewer) {
    row.recipient.Some? &&
    var t := row.recipient.value.typeId;
    var ps := row.recipient.value.params;
    t == 1 ||
    (t == 2 && "project_ids" in ps && AnyIn(ps["project_ids"], v.memberProjects)) ||
    (t == 3 && "user_ids" in ps && v.userId in ps["user_ids"]) ||
    (t == 4 && RoleTruthy(v.roleId) && "role_ids" in ps && v.roleId.value in ps["role_ids"]) ||
    (t == 5 && "project_ids" in ps && AnyIn(ps["project_ids"], OwnedIds(v)))
  }

  /** The rows `filter_by_user` raises on: a needed key is missing, or a
      type-5 project does not exist. */
  predicate Raises(row: Row, v: Viewer) {
    row.recipient.Some? &&
    var t := row.recipient.value.typeId;
    var ps := row.recipient.value.params;
    ((t == 2 || t == 3 || t == 5) && (if t == 3 then "user_ids" else "project_ids") !in ps) ||
    (t == 4 && RoleTruthy(v.roleId) && "role_ids" !in ps) ||
    (t == 5 && "project_ids" in ps && exists k :: 0 <= k < |ps["project_ids"]| && ps["project_ids"][k] !in v.owners)
  }

  /** One row of `filter_by_user` as written. */
  function RowStep(out: seq<Row>, row: Row, v: Viewer): Result<seq<Row>> {
    if row.recipient.None? then Ok(out)
    else
      var t := row.recipient.value.typeId;
      var ps := row.recipient.value.params;
      if t == 1 then Ok(AddOnce(out, row))
      else if t == 2 then
        if "project_ids" !in ps then Err(KeyMissing)
        else Ok(if AnyIn(ps["project_ids"], v.memberProjects) then AddOnce(out, row) else out)
      else if t == 3 then
        if "user_ids" !in ps then Err(KeyMissing)
        else Ok(if v.userId in ps["user_ids"] then AddOnce(out, row) else out)
      else if t == 4 && RoleTruthy(v.roleId) then
        if "role_ids" !in ps then Err(KeyMissing)
        else Ok(if v.roleId.value in ps["role_ids"] then AddOnce(out, row) else out)
      else if t == 5 then
        if "project_ids" !in ps then Err(KeyMissing)
        else OwnedAppends(out, row, ps["project_ids"], v)
      else Ok(out)
  }

  function FilterRows(rows: seq<Row>, v: Viewer): Result<seq<Row>> {
    if rows == [] then Ok([])
    else
      match FilterRows(rows[..|rows| - 1], v)
      case Err(e) => Err(e)
      case Ok(out) => RowStep(out, rows[|rows| - 1], v)
  }

  /** The loops over the type-2, -3 and -4 id lists: the row is added once
      when some id is wanted. */
  method AddIfAny(out: seq<Row>, row: Row, ids: seq<int>, wanted: set<int>) returns (o: seq<Row>)
    ensures o == if AnyIn(ids, wanted) then AddOnce(out, row) else out
  {
    o := out;
    for i := 0 to |ids|
      invariant o == if AnyIn(ids[..i], wanted) then AddOnce(out, row) else out
    {
      assert forall k :: 0 <= k < i ==> ids[..i + 1][k] == ids[..i][k];
      assert ids[..i + 1][i] == ids[i];
      if ids[i] in wanted && row !in o {
        o := o + [row];
      }
    }
    assert ids[..|ids|] == ids;
  }

  /** The type-5 loop. */
  method AppendOwned(out: seq<Row>, row: Row, pids: seq<int>, v: Viewer) returns (r: Result<seq<Row>>)
    ensures r == OwnedAppends(out, row, pids, v)
  {
    var o := out;
    for i := 0 to |pids|
      invariant OwnedAppends(out, row, pids[..i], v) == Ok(o)
    {
      assert pids[..i + 1][..i] == pids[..i];
      var pid := pids[i];
      if pid !in v.owners {
        PrefixRaises(out, row, pids, v, i);
        return Err(NoProject);
      }
      if v.owners[pid] == v.userId {
        o := o + [row];
      }
    }
    assert pids[..|pids|] == pids;
    return Ok(o);
  }

  /** Once a prefix of the list raises, the whole loop does. */
  lemma {:induction false} PrefixRaises(out: seq<Row>, row: Row, pids: seq<int>, v: Viewer, i: nat)
    requires i < |pids| && OwnedAppends(out, row, pids[..i], v).Ok? && pids[i] !in v.owners
    ensures OwnedAppends(out, row, pids, v) == Err(NoProject)
    decreases |pids|
  {
    assert pids[..i + 1][..i] == pids[..i];
    if i + 1 < |pids| {
      var init := pids[..|pids| - 1];
      assert init[..i] == pids[..i] && init[i] == pids[i];
      PrefixRaises(out, row, init, v, i);
    } else {
      assert pids[..i + 1] == pids;
    }
  }

  /** `filter_by_user`. */
  method FilterByUser(rows: seq<Row>, v: Viewer) returns (r: Result<seq<Row>>)
    ensures r == FilterRows(rows, v)
  {
    var out: seq<Row> := [];
    for i := 0 to |rows|
      invariant FilterRows(rows[..i], v) == Ok(out)
    {
      assert rows[..i + 1][..i] == rows[..i];
      var row := rows[i];
      if row.recipient.Some? {
        var t := row.recipient.value.typeId;
        var ps := row.recipient.value.params;
        if t == 1 && row !in out {
          out := out + [row];
        }
        if t == 2 {
          if "project_ids" !in ps {
            FilterRaisesLater(rows, v, i + 1);
            return Err(KeyMissing);
          }
          out := AddIfAny(out, row, ps["project_ids"], v.memberProjects);
        }
        if t == 3 {
          if "user_ids" !in ps {
            FilterRaisesLater(rows, v, i + 1);
            return Err(KeyMissing);
          }
          out := AddIfAny(out, row, ps["user_ids"], {v.userId});
        }
        if RoleTruthy(v.roleId) && t == 4 {
          if "role_ids" !in ps {
            FilterRaisesLater(rows, v, i + 1);
            return Err(KeyMissing);
          }
          out := AddIfAny(out, row, ps["role_ids"], {v.roleId.value});
        }
        if t == 5 {
          if "project_ids" !in ps {
            FilterRaisesLater(rows, v, i + 1);
            return Err(KeyMissing);
          }
          var step := AppendOwned(out, row, ps["project_ids"], v);
          if step.Err? {
            FilterRaisesLater(rows, v, i + 1);
            return step;
          }
          out := step.value;
        }
      }
    }
    assert rows[..|rows|] == rows;
    return Ok(out);
  }

  /** An error in the first `i` rows is the error of all of them. */
  lemma {:induction false} FilterRaisesLater(rows: seq<Row>, v: Viewer, i: nat)
    requires i <= |rows| && FilterRows(rows[..i], v).Err?
    ensures FilterRows(rows, v) == FilterRows(rows[..i], v)
    decreases |rows|
  {
    if i < |rows| {
      var init := rows[..|rows| - 1];
      assert init[..i] == rows[..i];
      FilterRaisesLater(init, v, i);
    } else {
      assert rows[..i] == rows;
    }
  }

  /** A type-5 row listing two projects the user owns. */
  const OwnedTwice := Row(1, Some(Recipient(5, map["project_ids" := [7, 8]])))
  const Owner := Viewer(42, None, {}, map[7 := 42, 8 := 42])

  /** As written, that row is returned twice: the type-5 loop lacks the
      "not yet in the list" check the other types have. */
  lemma FilterByUserDuplicates()
    ensures FilterRows([OwnedTwice], Owner) == Ok([OwnedTwice, OwnedTwice])
  {
    var one: seq<int> := [7];
    var two: seq<int> := [7, 8];
    assert one[..0] == [] && two[..1] == one;
    assert OwnedAppends([], OwnedTwice, [], Owner) == Ok([]);
    assert 7 in Owner.owners && Owner.owners[7] == Owner.userId;
    assert 8 in Owner.owners && Owner.owners[8] == Owner.userId;
    assert one[|one| - 1] == 7 && two[|two| - 1] == 8;
    assert [] + [OwnedTwice] == [OwnedTwice];
    assert [OwnedTwice] + [OwnedTwice] == [OwnedTwice, OwnedTwice];
    assert OwnedAppends([], OwnedTwice, one, Owner) == Ok([OwnedTwice]);
    assert OwnedAppends([], OwnedTwice, two, Owner) == Ok([OwnedTwice, OwnedTwice]);
    assert OwnedTwice.recipient.value.params["project_ids"] == two;
    assert [OwnedTwice][..0] == [];
    assert FilterRows([], Owner) == Ok([]);
  }

  /** One row of `filter_by_user` with the type-5 loop also adding the row
      only once. */
  function RowStepFixed(out: seq<Row>, row: Row, v: Viewer): Result<seq<Row>> {
    if row.recipient.Some? && row.recipient.value.typeId == 5 then
      var ps := row.recipient.value.params;
      if "project_ids" !in ps then Err(KeyMissing)
      else if exists k :: 0 <= k < |ps["project_ids"]| && ps["project_ids"][k] !in v.owners then Err(NoProject)
      else Ok(if AnyIn(ps["project_ids"], OwnedIds(v)) then AddOnce(out, row) else out)
    else RowStep(out, row, v)
  }

  function FilterRowsFixed(rows: seq<Row>, v: Viewer): Result<seq<Row>> {
    if rows == [] then Ok([])
    else
      match FilterRowsFixed(rows[..|rows| - 1], v)
      case Err(e) => Err(e)
      case Ok(out) => RowStepFixed(out, rows[|rows| - 1], v)
  }

  predicate NoDuplicates(rows: seq<Row>) {
    forall i, j :: 0 <= i < j < |rows| ==> rows[i] != rows[j]
  }

  lemma AddOnceKeeps(out: seq<Row>, row: Row)
    requires NoDuplicates(out)
    ensures NoDuplicates(AddOnce(out, row))
    ensures forall x :: x in AddOnce(out, row) <==> x in out || x == row
  {
  }

  /** The corrected filter raises exactly on a row it cannot read, and
      otherwise returns each visible row exactly once. */
  lemma {:induction false} FilterRowsFixedMeaning(rows: seq<Row>, v: Viewer)
    ensures FilterRowsFixed(rows, v).Err? <==> exists k :: 0 <= k < |rows| && Raises(rows[k], v)
    ensures FilterRowsFixed(rows, v).Ok? ==>
              NoDuplicates(FilterRowsFixed(rows, v).value) &&
              forall x :: x in FilterRowsFixed(rows, v).value <==> x in rows && Visible(x, v)
  {
    if rows != [] {
      var init := rows[..|rows| - 1];
      var row := rows[|rows| - 1];
      FilterRowsFixedMeaning(init, v);
      assert rows == init + [row];
      assert forall k :: 0 <= k < |init| ==> init[k] == rows[k];
      if FilterRowsFixed(init, v).Ok? {
        var out := FilterRowsFixed(init, v).value;
        StepFixedMeaning(out, row, v);
        if FilterRowsFixed(rows, v).Ok? {
          forall x ensures x in FilterRowsFixed(rows, v).value <==> x in rows && Visible(x, v) {
            assert x in rows <==> x in init || x == row;
          }
        }
      }
    }
  }

  /** One corrected step raises exactly on a row it cannot read, and
      otherwise adds the row, once, exactly when it is visible. */
  lemma StepFixedMeaning(out: seq<Row>, row: Row, v: Viewer)
    requires NoDuplicates(out)
    ensures RowStepFixed(out, row, v).Err? <==> Raises(row, v)
    ensures RowStepFixed(out, row, v).Ok? ==>
              NoDuplicates(RowStepFixed(out, row, v).value) &&
              forall x :: x in RowStepFixed(out, row, v).value <==> x in out || (x == row && Visible(row, v))
  {
    AddOnceKeeps(out, row);
    if row.recipient.Some? {
      var t := row.recipient.value.typeId;
      var ps := row.recipient.value.params;
      if t == 3 && "user_ids" in ps {
        assert AnyIn(ps["user_ids"], {v.userId}) <==> v.userId in ps["user_ids"];
      }
    }
  }

  /** The type-5 loop as written raises exactly on a project that does not
      exist, and otherwise adds the row when the user owns a listed project. */
  lemma {:induction false} OwnedAppendsRows(out: seq<Row>, row: Row, pids: seq<int>, v: Viewer)
    ensures OwnedAppends(out, row, pids, v).Ok? <==> forall k :: 0 <= k < |pids| ==> pids[k] in v.owners
    ensures OwnedAppends(out, row, pids, v).Ok? ==>
              forall x :: x in OwnedAppends(out, row, pids, v).value <==>
                x in out || (x == row && AnyIn(pids, OwnedIds(v)))
  {
    if pids != [] {
      var init := pids[..|pids| - 1];
      assert forall k :: 0 <= k < |init| ==> init[k] == pids[k];
      OwnedAppendsRows(out, row, init, v);
      var last := pids[|pids| - 1];
      assert AnyIn(pids, OwnedIds(v)) <==> AnyIn(init, OwnedIds(v)) || last in OwnedIds(v);
    }
  }

  /** From lists with the same rows, one step as written and one corrected
      step raise alike and reach lists with the same rows. */
  lemma StepSameRows(a: seq<Row>, b: seq<Row>, row: Row, v: Viewer)
    requires forall x :: x in a <==> x in b
    ensures RowStep(a, row, v).Ok? <==> RowStepFixed(b, row, v).Ok?
    ensures RowStep(a, row, v).Ok? ==>
              forall x :: x in RowStep(a, row, v).value <==> x in RowStepFixed(b, row, v).value
  {
    if row.recipient.Some? && row.recipient.value.typeId == 5 && "project_ids" in row.recipient.value.params {
      OwnedAppendsRows(a, row, row.recipient.value.params["project_ids"], v);
    }
  }

  /** The filter as written and the corrected one raise on the same rows and
      return the same rows; they differ only in how often a row appears. */
  lemma {:induction false} FilterRowsSameRows(rows: seq<Row>, v: Viewer)
    ensures FilterRows(rows, v).Ok? <==> FilterRowsFixed(rows, v).Ok?
    ensures FilterRows(rows, v).Ok? ==>
              forall x :: x in FilterRows(rows, v).value <==> x in FilterRowsFixed(rows, v).value
  {
    if rows != [] {
      var init := rows[..|rows| - 1];
      FilterRowsSameRows(init, v);
      if FilterRows(init, v).Ok? {
        StepSameRows(FilterRows(init, v).value, FilterRowsFixed(init, v).value, rows[|rows| - 1], v);
      }
    }
  }

  /** A message as stored; `close` starts false. */
  datatype Message = Message(id: int, alertLevel: int, title: string, message: string, creatorId: int, close: bool)

  datatype RecipientRow = RecipientRow(messageId: int, typeId: int, params: map<string, seq<int>>)

  /** Repeated system alerts and GitHub token alerts are not created again
      while an earlier one with that title is unread by every administrator. */
  predicate Suppressed(alertLevel: int, unreadSameTitle: seq<Message>) {
    (alertLevel == 102 || alertLevel == 301) && unreadSameTitle != []
  }

  /** The unread messages with that title: open, and read by no administrator. */
  function UnreadWithTitle(messages: seq<Message>, readByAdmin: set<int>, title: string): (r: seq<Message>)
    ensures forall m :: m in r <==> m in messages && !m.close && m.title == title && m.id !in readByAdmin
  {
    if messages == [] then []
    else
      var init := messages[..|messages| - 1];
      var m := messages[|messages| - 1];
      assert messages == init + [m];
      UnreadWithTitle(init, readByAdmin, title) +
      (if !m.close && m.title == title && m.id !in readByAdmin then [m] else [])
  }

  function RecipientRows(messageId: int, typeIds: seq<int>, params: map<string, seq<int>>): (r: seq<RecipientRow>)
    ensures |r| == |typeIds|
    ensures forall k :: 0 <= k < |typeIds| ==> r[k] == RecipientRow(messageId, typeIds[k], params)
  {
    seq(|typeIds|, k requires 0 <= k < |typeIds| => RecipientRow(messageId, typeIds[k], params))
  }

  /** The notification_message and notification_message_recipient tables;
      `nextId` is the next message id the database hands out. */
  class MessageStore {
    var messages: seq<Message>
    var recipients: seq<RecipientRow>
    var nextId: int

    constructor ()
      ensures messages == [] && recipients == [] && nextId == 1
    {
      messages := [];
      recipients := [];
      nextId := 1;
    }

    /** `create_notification_message`: nothing is stored for a suppressed
        alert; otherwise the message and one recipient row per type id, all
        with the same parameters. */
    method CreateNotificationMessage(alertLevel: int, title: string, message: string, userId: int,
                                     typeIds: seq<int>, params: map<string, seq<int>>, readByAdmin: set<int>)
      returns (created: Option<int>)
      modifies this
      ensures Suppressed(alertLevel, UnreadWithTitle(old(messages), readByAdmin, title)) ==>
                created.None? && messages == old(messages) && recipients == old(recipients) && nextId == old(nextId)
      ensures !Suppressed(alertLevel, UnreadWithTitle(old(messages), readByAdmin, title)) ==>
                created == Some(old(nextId)) && nextId == old(nextId) + 1 &&
                messages == old(messages) + [Message(old(nextId), alertLevel, title, message, userId, false)] &&
                recipients == old(recipients) + RecipientRows(old(nextId), typeIds, params)
    {
      if (alertLevel == 102 || alertLevel == 301) && UnreadWithTitle(messages, readByAdmin, title) != [] {
        return None;
      }
      var id := nextId;
      messages := messages + [Message(id, alertLevel, title, message, userId, false)];
      nextId := nextId + 1;
      var added: seq<RecipientRow> := [];
      for i := 0 to |typeIds|
        invariant added == RecipientRows(id, typeIds[..i], params)
      {
        added := added + [RecipientRow(id, typeIds[i], params)];
      }
      assert typeIds[..|typeIds|] == typeIds;
      recipients := recipients + added;
      created := Some(id);
    }
  }

  /** Only the two repeatable alert levels are ever suppressed, and only by
      an open earlier message with the same title no administrator has read. */
  lemma SuppressedMeaning(alertLevel: int, messages: seq<Message>, readByAdmin: set<int>, title: string)
    ensures Suppressed(alertLevel, UnreadWithTitle(messages, readByAdmin, title)) <==>
              (alertLevel == 102 || alertLevel == 301) &&
              exists m :: m in messages && !m.close && m.title == title && m.id !in readByAdmin
  {
    var u := UnreadWithTitle(messages, readByAdmin, title);
    if u != [] {
      assert u[0] in u;
    }
  }
}
