/** The named locks of `apis/resources/lock.py`: rows of the lock table,
    each a name with a locked flag and the date of the last sync, looked up
    by the first row that carries the name. */
module Lock {
  import opened Wrappers

  /** A lock row; `syncDate` is a timestamp, `None` when the column is NULL. */
  datatype LockRow = LockRow(name: string, isLock: bool, syncDate: Option<int>)

  /** The index of the first row named `name`, as `filter_by(name=…).first()` finds it. */
  function FirstNamed(rows: seq<LockRow>, name: string): (r: Option<nat>)
    ensures r.None? <==> forall k :: 0 <= k < |rows| ==> rows[k].name != name
    ensures r.Some? ==> r.value < |rows| && rows[r.value].name == name &&
                        forall k :: 0 <= k < r.value ==> rows[k].name != name
  {
    if rows == [] then None
    else if rows[0].name == name then Some(0)
    else match FirstNamed(rows[1..], name)
      case None => None
      case Some(i) => Some(i + 1)
  }

  /** `get_lock_status`: the row's fields, `None` standing for the empty dict. */
  function LockStatus(rows: seq<LockRow>, name: string): (r: Option<LockRow>)
    ensures r.None? <==> forall k :: 0 <= k < |rows| ==> rows[k].name != name
    ensures r.Some? ==> r.value in rows && r.value.name == name
  {
    match FirstNamed(rows, name)
    case None => None
    case Some(i) => Some(rows[i])
  }

  /** `update_lock_status`: sets the flag of the first row with that name and,
      when a date is given, its sync date; an unknown name changes nothing. */
  function LockUpdated(rows: seq<LockRow>, name: string, isLock: bool, syncDate: Option<int>): seq<LockRow> {
    match FirstNamed(rows, name)
    case None => rows
    case Some(i) =>
      rows[i := rows[i].(isLock := isLock, syncDate := if syncDate.Some? then syncDate else rows[i].syncDate)]
  }

  /** Reading a lock after updating it shows the new flag, the new date if
      one was given and the old date otherwise; an unknown name stays unknown. */
  lemma StatusAfterUpdate(rows: seq<LockRow>, name: string, isLock: bool, syncDate: Option<int>)
    ensures var s := LockStatus(LockUpdated(rows, name, isLock, syncDate), name);
      (LockStatus(rows, name).None? ==> s.None?) &&
      (LockStatus(rows, name).Some? ==>
         s == Some(LockRow(name, isLock,
                           if syncDate.Some? then syncDate else LockStatus(rows, name).value.syncDate)))
  {
    var after := LockUpdated(rows, name, isLock, syncDate);
    match FirstNamed(rows, name)
    case None =>
    case Some(i) =>
      assert after[i].name == name;
      assert forall k :: 0 <= k < i ==> after[k] == rows[k];
  }

  /** Updating one lock leaves every other lock as it was. */
  lemma UpdateIsolated(rows: seq<LockRow>, name: string, isLock: bool, syncDate: Option<int>, other: string)
    requires other != name
    ensures LockStatus(LockUpdated(rows, name, isLock, syncDate), other) == LockStatus(rows, other)
  {
    var after := LockUpdated(rows, name, isLock, syncDate);
    assert |after| == |rows|;
    assert forall k :: 0 <= k < |rows| ==> after[k].name == rows[k].name;
    assert forall k :: 0 <= k < |rows| && rows[k].name == other ==> after[k] == rows[k];
  }

  /** The lock table. */
  class LockTable {
    var rows: seq<LockRow>

    constructor (rows: seq<LockRow>)
      ensures this.rows == rows
    {
      this.rows := rows;
    }

    /** `get_lock_status`. */
    method GetLockStatus(name: string) returns (r: Option<LockRow>)
      ensures r.None? <==> forall k :: 0 <= k < |rows| ==> rows[k].name != name
      ensures r.Some? ==> r.value in rows && r.value.name == name
      ensures r == LockStatus(rows, name)
    {
      var i := FirstNamed(rows, name);
      if i.None? {
        return None;
      }
      r := Some(rows[i.value]);
    }

    /** `update_lock_status`. */
    method UpdateLockStatus(name: string, isLock: bool, syncDate: Option<int>)
      modifies this
      ensures rows == LockUpdated(old(rows), name, isLock, syncDate)
    {
      var i := FirstNamed(rows, name);
      if i.Some? {
        var row := rows[i.value];
        row := row.(isLock := isLock);
        if syncDate.Some? {
          row := row.(syncDate := syncDate);
        }
        rows := rows[i.value := row];
      }
    }
  }
}
