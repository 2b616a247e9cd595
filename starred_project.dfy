/** Starred projects (`apis/resources/starred_project.py`): a user may star
    up to ten projects. The starred_project table is a list of (user,
    project) rows in insertion order. */
module StarredProject {
  import opened Wrappers
  import opened Strs
  import opened PyList

  datatype Star = Star(userId: int, projectId: int)

  const Limit := 10

  /** The error `spj_set` raises at the limit. */
  function LimitReached(userId: int, projectId: int): Error {
    DevOps(400, "User " + IntToString(userId) + " can not added " + IntToString(projectId) +
                " to starred projects, reached the limit of 10")
  }

  /** The number of rows of one user. */
  function CountOf(rows: seq<Star>, userId: int): nat {
    if rows == [] then 0
    else CountOf(rows[..|rows| - 1], userId) + (if rows[|rows| - 1].userId == userId then 1 else 0)
  }

  /** Nobody has more than ten stars. */
  ghost predicate Capped(rows: seq<Star>) {
    forall u :: CountOf(rows, u) <= Limit
  }

  /** No (user, project) pair is stored twice. */
  predicate Distinct(rows: seq<Star>) {
    forall i, j :: 0 <= i < j < |rows| ==> rows[i] != rows[j]
  }

  /** `spj_set`: the table afterwards, or the error raised. */
  function StarSet(rows: seq<Star>, userId: int, projectId: int): (r: Result<seq<Star>>)
    ensures r.Ok? ==> Star(userId, projectId) in r.value
    ensures r.Err? <==> Star(userId, projectId) !in rows && CountOf(rows, userId) >= Limit
  {
    if Star(userId, projectId) in rows then Ok(rows)
    else if CountOf(rows, userId) >= Limit then Err(LimitReached(userId, projectId))
    else Ok(rows + [Star(userId, projectId)])
  }

  /** `spj_unset`: deletes the first row of that pair, if any. */
  function StarUnset(rows: seq<Star>, userId: int, projectId: int): (r: seq<Star>)
    ensures Star(userId, projectId) !in rows ==> r == rows
    ensures Star(userId, projectId) in rows ==> |r| == |rows| - 1
  {
    RemoveFirst(rows, Star(userId, projectId))
  }

  lemma CountAppend(rows: seq<Star>, x: Star, u: int)
    ensures CountOf(rows + [x], u) == CountOf(rows, u) + (if x.userId == u then 1 else 0)
  {
    assert (rows + [x])[..|rows|] == rows;
  }

  lemma {:induction false} CountPrepend(x: Star, rows: seq<Star>, u: int)
    ensures CountOf([x] + rows, u) == CountOf(rows, u) + (if x.userId == u then 1 else 0)
    decreases |rows|
  {
    if rows != [] {
      var init := rows[..|rows| - 1];
      assert ([x] + rows)[..|rows|] == [x] + init;
      CountPrepend(x, init, u);
    }
  }

  lemma {:induction false} CountRemoveFirst(rows: seq<Star>, x: Star, u: int)
    ensures CountOf(RemoveFirst(rows, x), u) <= CountOf(rows, u)
    decreases |rows|
  {
    if rows != [] {
      assert rows == [rows[0]] + rows[1..];
      CountPrepend(rows[0], rows[1..], u);
      if rows[0] != x {
        CountRemoveFirst(rows[1..], x, u);
        CountPrepend(rows[0], RemoveFirst(rows[1..], x), u);
      }
    }
  }

  /** Starring an already starred project changes nothing; a user at the
      limit is refused and the table is left alone; otherwise exactly that
      pair is added at the end. */
  lemma StarSetEffect(rows: seq<Star>, userId: int, projectId: int)
    ensures var r := StarSet(rows, userId, projectId);
      (Star(userId, projectId) in rows ==> r == Ok(rows)) &&
      (r.Err? <==> Star(userId, projectId) !in rows && CountOf(rows, userId) >= Limit) &&
      (r.Ok? ==> Star(userId, projectId) in r.value) &&
      (r.Ok? && Star(userId, projectId) !in rows ==> r.value == rows + [Star(userId, projectId)])
  {
  }

  /** Starring twice is starring once. */
  lemma StarSetIdempotent(rows: seq<Star>, userId: int, projectId: int)
    requires StarSet(rows, userId, projectId).Ok?
    ensures StarSet(StarSet(rows, userId, projectId).value, userId, projectId) == StarSet(rows, userId, projectId)
  {
  }

  /** Starring keeps every user at or under ten stars and stores no pair twice. */
  lemma StarSetKeeps(rows: seq<Star>, userId: int, projectId: int)
    requires Capped(rows) && Distinct(rows)
    ensures StarSet(rows, userId, projectId).Ok? ==>
              Capped(StarSet(rows, userId, projectId).value) && Distinct(StarSet(rows, userId, projectId).value)
  {
    var x := Star(userId, projectId);
    if x !in rows && CountOf(rows, userId) < Limit {
      forall u ensures CountOf(rows + [x], u) <= Limit {
        CountAppend(rows, x, u);
      }
      var n := rows + [x];
      assert forall i :: 0 <= i < |rows| ==> n[i] == rows[i];
    }
  }

  /** Taking one row out of a table without repeated pairs leaves no copy of it. */
  lemma DistinctSplice(rows: seq<Star>, i: nat)
    requires Distinct(rows) && i < |rows|
    ensures rows[i] !in rows[..i] + rows[i + 1..]
  {
    var r := rows[..i] + rows[i + 1..];
    forall k | 0 <= k < |r| ensures r[k] != rows[i] {
      if k < i {
        assert r[k] == rows[k];
      } else {
        assert r[k] == rows[k + 1];
      }
    }
  }

  /** Unstarring removes that pair, keeps every other row in order, and is
      a no-op when the pair is absent. */
  lemma StarUnsetEffect(rows: seq<Star>, userId: int, projectId: int)
    requires Distinct(rows)
    ensures var x := Star(userId, projectId);
      var r := StarUnset(rows, userId, projectId);
      (x !in rows ==> r == rows) && x !in r && multiset(r) == multiset(rows) - multiset{x}
  {
    var x := Star(userId, projectId);
    if x in rows {
      RemoveFirstSplice(rows, x);
      RemoveFirstMultiset(rows, x);
      DistinctSplice(rows, FirstIndex(rows, x));
    }
  }

  /** Unstarring keeps every user at or under ten stars. */
  lemma StarUnsetCapped(rows: seq<Star>, userId: int, projectId: int)
    requires Capped(rows)
    ensures Capped(StarUnset(rows, userId, projectId))
  {
    forall u ensures CountOf(StarUnset(rows, userId, projectId), u) <= Limit {
      CountRemoveFirst(rows, Star(userId, projectId), u);
    }
  }

  /** The starred_project table. */
  class StarTable {
    var rows: seq<Star>

    constructor ()
      ensures rows == []
    {
      rows := [];
    }

    /** `spj_set`. */
    method SpjSet(userId: int, projectId: int) returns (r: Outcome)
      modifies this
      ensures StarSet(old(rows), userId, projectId).Ok? ==>
                r == Pass && rows == StarSet(old(rows), userId, projectId).value
      ensures StarSet(old(rows), userId, projectId).Err? ==>
                r == Fail(StarSet(old(rows), userId, projectId).error) && rows == old(rows)
    {
      if Star(userId, projectId) in rows {
        return Pass;
      }
      if CountOf(rows, userId) >= Limit {
        return Fail(LimitReached(userId, projectId));
      }
      rows := rows + [Star(userId, projectId)];
      r := Pass;
    }

    /** `spj_unset`. */
    method SpjUnset(userId: int, projectId: int)
      modifies this
      ensures rows == StarUnset(old(rows), userId, projectId)
    {
      if Star(userId, projectId) !in rows {
        return;
      }
      rows := RemoveFirst(rows, Star(userId, projectId));
    }
  }
}
