/** The per-user column choice of the issue lists
    (`apis/resources/issue_display_field.py`): one row per user, project and
    list type, created with the default columns on first read. */
module IssueDisplayField {
  import opened Wrappers

  datatype FieldRow = FieldRow(userId: int, projectId: int, fieldType: string, displayField: seq<string>)

  /** The table after the call and the columns returned or the error raised. */
  datatype Reply = Reply(rows: seq<FieldRow>, result: Result<seq<string>>)

  const DefaultDisplayField: seq<string> := ["name", "tracker", "status", "priority", "assigned_to"]

  /** The only list types the row's validator accepts. */
  const FieldTypes: set<string> := {"wbs_cache", "issue_list"}

  const BadType := AssertionErr("Type must in wbs_cache / issue_list.")

  predicate IsKey(row: FieldRow, userId: int, projectId: int, fieldType: string) {
    row.userId == userId && row.projectId == projectId && row.fieldType == fieldType
  }

  /** Every stored row passed the validator. */
  predicate Valid(rows: seq<FieldRow>) {
    forall k :: 0 <= k < |rows| ==> rows[k].fieldType in FieldTypes
  }

  /** The first row of that user, project and type. */
  function FirstRow(rows: seq<FieldRow>, userId: int, projectId: int, fieldType: string): (r: Option<nat>)
    ensures r.None? <==> forall k :: 0 <= k < |rows| ==> !IsKey(rows[k], userId, projectId, fieldType)
    ensures r.Some? ==> r.value < |rows| && IsKey(rows[r.value], userId, projectId, fieldType) &&
                        forall k :: 0 <= k < r.value ==> !IsKey(rows[k], userId, projectId, fieldType)
  {
    if rows == [] then None
    else if IsKey(rows[0], userId, projectId, fieldType) then Some(0)
    else match FirstRow(rows[1..], userId, projectId, fieldType)
      case None => None
      case Some(i) => Some(i + 1)
  }

  /** `create_issue_display_field`: the validator refuses an unknown type. */
  function Created(rows: seq<FieldRow>, userId: int, projectId: int, fieldType: string, displayField: seq<string>): (r: Reply)
    ensures r.result.Err? <==> fieldType !in FieldTypes
    ensures r.result.Err? ==> r.rows == rows
    ensures r.result.Ok? ==> r.rows == rows + [FieldRow(userId, projectId, fieldType, displayField)]
  {
    if fieldType !in FieldTypes then Reply(rows, Err(BadType))
    else Reply(rows + [FieldRow(userId, projectId, fieldType, displayField)], Ok(displayField))
  }

  /** `get_issue_display_field`. */
  function GetField(rows: seq<FieldRow>, userId: int, projectId: int, fieldType: string): (r: Reply)
    ensures FirstRow(rows, userId, projectId, fieldType).Some? ==> r.rows == rows && r.result.Ok?
    ensures r.result.Err? ==> r.rows == rows && fieldType !in FieldTypes
    ensures |rows| <= |r.rows| <= |rows| + 1 && r.rows[..|rows|] == rows
  {
    match FirstRow(rows, userId, projectId, fieldType)
    case Some(i) => Reply(rows, Ok(rows[i].displayField))
    case None => Created(rows, userId, projectId, fieldType, DefaultDisplayField)
  }

  /** `put_issue_display_field`. */
  function PutField(rows: seq<FieldRow>, userId: int, projectId: int, fieldType: string, displayField: seq<string>): (r: Reply)
    ensures r.result.Ok? ==> r.result.value == displayField
    ensures r.result.Err? ==> r.rows == rows && fieldType !in FieldTypes
    ensures FirstRow(rows, userId, projectId, fieldType).Some? ==> r.result.Ok? && |r.rows| == |rows|
  {
    match FirstRow(rows, userId, projectId, fieldType)
    case Some(i) => Reply(rows[i := rows[i].(displayField := displayField)], Ok(displayField))
    case None => Created(rows, userId, projectId, fieldType, displayField)
  }

  /** Reading a missing entry creates it with the default columns; reading an
      existing one changes nothing; on valid rows only an unknown type fails. */
  lemma GetFieldEffect(rows: seq<FieldRow>, userId: int, projectId: int, fieldType: string)
    requires Valid(rows)
    ensures var r := GetField(rows, userId, projectId, fieldType);
      (r.result.Err? <==> fieldType !in FieldTypes) &&
      (r.result.Err? ==> r == Reply(rows, Err(BadType))) &&
      (FirstRow(rows, userId, projectId, fieldType).Some? ==> r.rows == rows) &&
      (FirstRow(rows, userId, projectId, fieldType).None? && r.result.Ok? ==>
         r == Reply(rows + [FieldRow(userId, projectId, fieldType, DefaultDisplayField)], Ok(DefaultDisplayField)))
      && Valid(r.rows)
  {
    var r := GetField(rows, userId, projectId, fieldType);
    if FirstRow(rows, userId, projectId, fieldType).None? && fieldType in FieldTypes {
      assert forall k :: 0 <= k < |rows| ==> r.rows[k] == rows[k];
    }
  }

  /** A second read returns what the first did and changes nothing more. */
  lemma GetFieldStable(rows: seq<FieldRow>, userId: int, projectId: int, fieldType: string)
    requires GetField(rows, userId, projectId, fieldType).result.Ok?
    ensures var r := GetField(rows, userId, projectId, fieldType);
      GetField(r.rows, userId, projectId, fieldType) == r
  {
    var r := GetField(rows, userId, projectId, fieldType);
    if FirstRow(rows, userId, projectId, fieldType).None? {
      assert IsKey(r.rows[|rows|], userId, projectId, fieldType);
      assert forall k :: 0 <= k < |rows| ==> r.rows[k] == rows[k];
    }
  }

  /** What was put is what is read back. */
  lemma PutThenGet(rows: seq<FieldRow>, userId: int, projectId: int, fieldType: string, displayField: seq<string>)
    requires PutField(rows, userId, projectId, fieldType, displayField).result.Ok?
    ensures var p := PutField(rows, userId, projectId, fieldType, displayField);
      p.result == Ok(displayField) &&
      GetField(p.rows, userId, projectId, fieldType) == Reply(p.rows, Ok(displayField))
  {
    var p := PutField(rows, userId, projectId, fieldType, displayField);
    match FirstRow(rows, userId, projectId, fieldType)
    case Some(i) =>
      assert IsKey(p.rows[i], userId, projectId, fieldType);
      assert forall k :: 0 <= k < i ==> p.rows[k] == rows[k];
    case None =>
      assert IsKey(p.rows[|rows|], userId, projectId, fieldType);
      assert forall k :: 0 <= k < |rows| ==> p.rows[k] == rows[k];
  }

  /** Putting one entry leaves what every other user, project or type reads. */
  lemma PutIsolated(rows: seq<FieldRow>, userId: int, projectId: int, fieldType: string, displayField: seq<string>,
                    u: int, p: int, t: string)
    requires !(u == userId && p == projectId && t == fieldType)
    ensures FirstRow(PutField(rows, userId, projectId, fieldType, displayField).rows, u, p, t) ==
              FirstRow(rows, u, p, t)
  {
    var after := PutField(rows, userId, projectId, fieldType, displayField).rows;
    assert forall k :: 0 <= k < |rows| ==>
      (IsKey(after[k], u, p, t) <==> IsKey(rows[k], u, p, t));
    var f := FirstRow(rows, u, p, t);
    var g := FirstRow(after, u, p, t);
    if f.Some? && g.Some? {
      assert !(f.value < g.value) && !(g.value < f.value);
    }
  }

  /** The issue_display_field table. */
  class FieldTable {
    var rows: seq<FieldRow>

    constructor ()
      ensures rows == []
    {
      rows := [];
    }

    /** `create_issue_display_field`. */
    method Create(userId: int, projectId: int, fieldType: string, displayField: seq<string>) returns (r: Result<seq<string>>)
      modifies this
      ensures Reply(rows, r) == Created(old(rows), userId, projectId, fieldType, displayField)
    {
      if fieldType !in FieldTypes {
        return Err(BadType);
      }
      rows := rows + [FieldRow(userId, projectId, fieldType, displayField)];
      r := Ok(displayField);
    }

    /** `get_issue_display_field`. */
    method GetIssueDisplayField(userId: int, projectId: int, fieldType: string) returns (r: Result<seq<string>>)
      modifies this
      ensures Reply(rows, r) == GetField(old(rows), userId, projectId, fieldType)
    {
      var i := FirstRow(rows, userId, projectId, fieldType);
      if i.None? {
        r := Create(userId, projectId, fieldType, DefaultDisplayField);
        return;
      }
      r := Ok(rows[i.value].displayField);
    }

    /** `put_issue_display_field`. */
    method PutIssueDisplayField(userId: int, projectId: int, fieldType: string, displayField: seq<string>)
      returns (r: Result<seq<string>>)
      modifies this
      ensures Reply(rows, r) == PutField(old(rows), userId, projectId, fieldType, displayField)
    {
      var i := FirstRow(rows, userId, projectId, fieldType);
      if i.None? {
        r := Create(userId, projectId, fieldType, displayField);
        return;
      }
      rows := rows[i.value := rows[i.value].(displayField := displayField)];
      r := Ok(displayField);
    }
  }
}
