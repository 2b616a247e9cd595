/** The upload settings of `apis/resources/system_parameter.py`: the registry
    of accepted upload file types (a list of entries with an id, a MIME type,
    a file extension and an optional display name) and the upload size
    limit. */
module SystemParameter {
  import opened Wrappers
  import opened PyList

  /** One entry of the "upload_file_types" list. */
  datatype FileType = FileType(id: int, mimeType: string, extension: string, name: Option<string>)

  /** The fields a PATCH request may carry; an absent field is `None`. */
  datatype Patch = Patch(mimeType: Option<string>, extension: Option<string>, name: Option<string>)

  /** What a registry operation leaves behind: the list it commits and what
      it returns, or the exception it raises (nothing is committed then). */
  datatype Reply = Reply(types: seq<FileType>, result: Result<Option<FileType>>)

  const Duplicated := DevOps(400, "Argument mimetype+file extension is duplicated.")
  const InvalidSize := DevOps(404, "invalid value! Please input the size between 0-100")
  /** `upload_file_types[-1]` on an empty list. */
  const NoLastEntry := Crash("list index out of range")

  predicate SamePair(e: FileType, mimeType: string, extension: string) {
    e.mimeType == mimeType && e.extension == extension
  }

  /** Some entry already has this MIME type and extension. */
  predicate HasPair(types: seq<FileType>, mimeType: string, extension: string) {
    exists k :: 0 <= k < |types| && SamePair(types[k], mimeType, extension)
  }

  /** The registry invariant: ids strictly increase along the list and no two
      entries share a (MIME type, extension) pair. */
  predicate Valid(types: seq<FileType>) {
    (forall i, j :: 0 <= i < j < |types| ==> types[i].id < types[j].id) &&
    (forall i, j :: 0 <= i < j < |types| ==> !SamePair(types[j], types[i].mimeType, types[i].extension))
  }

  /** `next(filter(lambda x: x["id"] == id, types), {})` as an index. */
  function FindId(types: seq<FileType>, id: int): (r: Option<nat>)
    ensures r.None? <==> forall k :: 0 <= k < |types| ==> types[k].id != id
    ensures r.Some? ==> r.value < |types| && types[r.value].id == id &&
                        forall k :: 0 <= k < r.value ==> types[k].id != id
  {
    if types == [] then None
    else if types[0].id == id then Some(0)
    else match FindId(types[1..], id)
      case None => None
      case Some(k) => Some(k + 1)
  }

  // ---------------------------------------------------------------------
  // create_upload_file_types
  // ---------------------------------------------------------------------

  function Created(types: seq<FileType>, mimeType: string, extension: string, name: Option<string>): (r: Reply)
    ensures r.result == Err(Duplicated) <==> HasPair(types, mimeType, extension)
    ensures r.result.Err? ==> r.types == types
    ensures r.result.Ok? ==> |r.types| == |types| + 1 && r.types[..|types|] == types
  {
    if HasPair(types, mimeType, extension) then Reply(types, Err(Duplicated))
    else if types == [] then Reply(types, Err(NoLastEntry))
    else
      var row := FileType(types[|types| - 1].id + 1, mimeType, extension, name);
      Reply(types + [row], Ok(Some(row)))
  }

  /** A create fails with 400 exactly on a duplicate pair, and otherwise
      appends one entry with a fresh id larger than every other and with the
      requested fields, leaving the earlier entries as they were. */
  lemma CreatedEffect(types: seq<FileType>, mimeType: string, extension: string, name: Option<string>)
    requires Valid(types)
    ensures var c := Created(types, mimeType, extension, name);
      (c.result == Err(Duplicated) <==> HasPair(types, mimeType, extension)) &&
      (c.result.Err? ==> c.types == types) &&
      (c.result.Ok? <==> !HasPair(types, mimeType, extension) && types != []) &&
      (c.result.Ok? ==>
         c.result.value.Some? &&
         var row := c.result.value.value;
         c.types == types + [row] && row.mimeType == mimeType && row.extension == extension &&
         row.name == name && forall k :: 0 <= k < |types| ==> types[k].id < row.id)
  {
  }

  /** Creating keeps the registry valid. */
  lemma CreatedValid(types: seq<FileType>, mimeType: string, extension: string, name: Option<string>)
    requires Valid(types)
    ensures Valid(Created(types, mimeType, extension, name).types)
  {
    var c := Created(types, mimeType, extension, name);
    if c.result.Ok? {
      var n := c.types;
      assert forall i :: 0 <= i < |types| ==> n[i] == types[i];
      assert forall i :: 0 <= i < |types| ==> !SamePair(n[|types|], types[i].mimeType, types[i].extension);
    }
  }

  // ---------------------------------------------------------------------
  // delete_upload_file_types
  // ---------------------------------------------------------------------

  function Deleted(types: seq<FileType>, id: int): (r: Reply)
    ensures r.result.Ok?
    ensures r.result.value.None? <==> forall k :: 0 <= k < |types| ==> types[k].id != id
    ensures r.result.value.None? ==> r.types == types
    ensures r.result.value.Some? ==> r.result.value.value.id == id && |r.types| == |types| - 1
  {
    match FindId(types, id)
    case None => Reply(types, Ok(None))
    case Some(i) => Reply(RemoveFirst(types, types[i]), Ok(Some(types[i])))
  }

  /** `list.remove` of the entry found by id takes out exactly that index. */
  lemma RemoveFound(types: seq<FileType>, i: nat)
    requires i < |types| && forall k :: 0 <= k < i ==> types[k].id != types[i].id
    ensures FirstIndex(types, types[i]) == i
    ensures RemoveFirst(types, types[i]) == types[..i] + types[i + 1..]
  {
    RemoveFirstSplice(types, types[i]);
  }

  /** A delete of an unknown id changes nothing and returns nothing; a delete
      of a known id returns that entry and removes it, keeping the others in
      order, so no entry with that id is left. */
  lemma DeletedEffect(types: seq<FileType>, id: int)
    requires Valid(types)
    ensures var d := Deleted(types, id);
      d.result.Ok? &&
      ((forall k :: 0 <= k < |types| ==> types[k].id != id) ==> d == Reply(types, Ok(None))) &&
      (d.result.value.Some? ==>
         exists i :: 0 <= i < |types| && types[i].id == id &&
           d.result.value.value == types[i] && d.types == types[..i] + types[i + 1..]) &&
      forall k :: 0 <= k < |d.types| ==> d.types[k].id != id
  {
    match FindId(types, id)
    case None =>
    case Some(i) =>
      RemoveFound(types, i);
      var n := types[..i] + types[i + 1..];
      forall k | 0 <= k < |n| ensures n[k].id != id {
        if k >= i {
          assert n[k] == types[k + 1];
        }
      }
  }

  /** Removing one entry keeps the registry valid. */
  lemma SpliceValid(types: seq<FileType>, i: nat)
    requires Valid(types) && i < |types|
    ensures Valid(types[..i] + types[i + 1..])
  {
    var n := types[..i] + types[i + 1..];
    assert forall k :: 0 <= k < |n| ==> n[k] == types[if k < i then k else k + 1];
  }

  lemma DeletedValid(types: seq<FileType>, id: int)
    requires Valid(types)
    ensures Valid(Deleted(types, id).types)
  {
    match FindId(types, id)
    case None =>
    case Some(i) =>
      RemoveFound(types, i);
      SpliceValid(types, i);
  }

  // ---------------------------------------------------------------------
  // update_upload_file_types
  // ---------------------------------------------------------------------

  /** `found_mapping.update(args)` after the renaming of the request keys. */
  function Merged(e: FileType, p: Patch): (r: FileType)
    ensures r.id == e.id
  {
    FileType(e.id,
             if p.mimeType.Some? then p.mimeType.value else e.mimeType,
             if p.extension.Some? then p.extension.value else e.extension,
             if p.name.Some? then p.name else e.name)
  }

  function Updated(types: seq<FileType>, id: int, p: Patch): (r: Reply)
    ensures r.result.Err? ==> r.types == types && r.result.error == Duplicated
    ensures (forall k :: 0 <= k < |types| ==> types[k].id != id) ==> r == Reply(types, Ok(None))
    ensures |r.types| == |types|
  {
    match FindId(types, id)
    case None => Reply(types, Ok(None))
    case Some(i) =>
      var found := types[i];
      var index := FirstIndex(types, found);
      var rest := RemoveFirst(types, found);
      var m := Merged(found, p);
      RemoveFound(types, i);
      if HasPair(rest, m.mimeType, m.extension) then Reply(types, Err(Duplicated))
      else Reply(rest[..index] + [m] + rest[index..], Ok(Some(m)))
  }

  /** An unknown id changes nothing; otherwise the update raises 400 exactly
      when another entry already has the merged pair, and else rewrites the
      entry at its own index, leaving every other entry alone. */
  lemma UpdatedEffect(types: seq<FileType>, id: int, p: Patch)
    ensures var u := Updated(types, id, p);
      ((forall k :: 0 <= k < |types| ==> types[k].id != id) ==> u == Reply(types, Ok(None))) &&
      (u.result.Err? ==> u.types == types && u.result.error == Duplicated) &&
      forall i :: 0 <= i < |types| && types[i].id == id && (forall k :: 0 <= k < i ==> types[k].id != id) ==>
        var m := Merged(types[i], p);
        (u.result.Err? <==> exists k :: 0 <= k < |types| && k != i && SamePair(types[k], m.mimeType, m.extension)) &&
        (u.result.Ok? ==> u == Reply(types[i := m], Ok(Some(m))))
  {
    match FindId(types, id)
    case None =>
    case Some(i) =>
      RemoveFound(types, i);
      UpdateSplice(types, i, Merged(types[i], p));
  }

  lemma UpdateSplice(types: seq<FileType>, i: nat, m: FileType)
    requires i < |types|
    ensures var rest := types[..i] + types[i + 1..];
      rest[..i] + [m] + rest[i..] == types[i := m] &&
      (HasPair(rest, m.mimeType, m.extension) <==>
        exists k :: 0 <= k < |types| && k != i && SamePair(types[k], m.mimeType, m.extension))
  {
    var rest := types[..i] + types[i + 1..];
    assert rest[..i] == types[..i];
    assert rest[i..] == types[i + 1..];
    assert forall k :: 0 <= k < |rest| ==> rest[k] == types[if k < i then k else k + 1];
    if exists k :: 0 <= k < |types| && k != i && SamePair(types[k], m.mimeType, m.extension) {
      var k :| 0 <= k < |types| && k != i && SamePair(types[k], m.mimeType, m.extension);
      assert rest[if k < i then k else k - 1] == types[k];
    }
  }

  /** Updating keeps the registry valid: the id stays where it was and a
      clashing pair is refused. */
  lemma UpdatedValid(types: seq<FileType>, id: int, p: Patch)
    requires Valid(types)
    ensures Valid(Updated(types, id, p).types)
  {
    UpdatedEffect(types, id, p);
    var u := Updated(types, id, p);
    match FindId(types, id)
    case None =>
    case Some(i) =>
      var m := Merged(types[i], p);
      if u.result.Ok? {
        var n := types[i := m];
        forall a, b | 0 <= a < b < |n| ensures !SamePair(n[b], n[a].mimeType, n[a].extension) {
          if a == i {
            assert !SamePair(types[b], m.mimeType, m.extension);
          } else if b == i {
            assert !SamePair(types[a], m.mimeType, m.extension);
          }
        }
      }
  }

  // ---------------------------------------------------------------------
  // get_upload_file_distinct_name
  // ---------------------------------------------------------------------

  /** The names the loop has collected after the given prefix of the list. */
  function DistinctNames(types: seq<FileType>): seq<string>
  {
    if types == [] then []
    else
      var prev := DistinctNames(types[..|types| - 1]);
      var e := types[|types| - 1];
      if e.name.Some? && e.name.value !in prev then prev + [e.name.value] else prev
  }

  /** Some entry carries this name. */
  predicate Named(types: seq<FileType>, x: string) {
    exists k :: 0 <= k < |types| && types[k].name == Some(x)
  }

  /** Each name appears once, the names are exactly those some entry
      carries, and they come in order of first occurrence: a name listed
      before another first appears in an earlier entry. */
  lemma {:induction false} DistinctNamesMeaning(types: seq<FileType>)
    ensures var r := DistinctNames(types);
      (forall i, j :: 0 <= i < j < |r| ==> r[i] != r[j]) &&
      (forall x :: x in r <==> Named(types, x)) &&
      (forall i, j :: 0 <= i < j < |r| ==>
        exists a :: 0 <= a < |types| && types[a].name == Some(r[i]) && !Named(types[..a + 1], r[j]))
    decreases |types|
  {
    if types != [] {
      var init := types[..|types| - 1];
      var e := types[|types| - 1];
      DistinctNamesMeaning(init);
      var prev := DistinctNames(init);
      var r := DistinctNames(types);
      assert forall k :: 0 <= k < |init| ==> init[k] == types[k];
      forall x ensures Named(types, x) <==> Named(init, x) || e.name == Some(x) {
        if Named(types, x) && !Named(init, x) {
          var k :| 0 <= k < |types| && types[k].name == Some(x);
          assert k == |types| - 1;
        }
        if e.name == Some(x) {
          assert types[|types| - 1].name == Some(x);
        }
      }
      forall i, j | 0 <= i < j < |r| ensures
        exists a :: 0 <= a < |types| && types[a].name == Some(r[i]) && !Named(types[..a + 1], r[j])
      {
        if j < |prev| {
          var a :| 0 <= a < |init| && init[a].name == Some(prev[i]) && !Named(init[..a + 1], prev[j]);
          assert types[..a + 1] == init[..a + 1];
        } else {
          assert r[i] == prev[i] && r[j] == e.name.value && e.name.value !in prev;
          var a :| 0 <= a < |init| && init[a].name == Some(prev[i]);
          assert !Named(init, r[j]);
          assert types[..a + 1] == init[..a + 1];
          NamedPrefix(init, a + 1, r[j]);
        }
      }
    }
  }

  lemma NamedPrefix(types: seq<FileType>, n: nat, x: string)
    requires n <= |types| && !Named(types, x)
    ensures !Named(types[..n], x)
  {
  }

  /** The two settings this module stores in the system_parameter table. */
  class UploadSettings {
    /** The "upload_file_types" list. */
    var types: seq<FileType>
    /** The "upload_file_size" value in MB, `None` while no row exists. */
    var fileSize: Option<int>

    constructor (types0: seq<FileType>, fileSize0: Option<int>)
      ensures types == types0 && fileSize == fileSize0
    {
      types := types0;
      fileSize := fileSize0;
    }

    /** The duplicate scan of the create and update operations. */
    method ScanPair(list: seq<FileType>, mimeType: string, extension: string) returns (dup: bool)
      ensures dup <==> HasPair(list, mimeType, extension)
    {
      dup := false;
      var k := 0;
      while k < |list|
        invariant 0 <= k <= |list|
        invariant !HasPair(list[..k], mimeType, extension)
      {
        if SamePair(list[k], mimeType, extension) {
          dup := true;
          return;
        }
        assert forall a :: 0 <= a < k ==> list[..k][a] == list[..k + 1][a];
        k := k + 1;
      }
      assert list[..k] == list;
    }

    /** The `next(filter(...))` lookup by id. */
    method Find(id: int) returns (r: Option<nat>)
      ensures r == FindId(types, id)
    {
      var k := 0;
      while k < |types|
        invariant 0 <= k <= |types|
        invariant forall a :: 0 <= a < k ==> types[a].id != id
      {
        if types[k].id == id {
          return Some(k);
        }
        k := k + 1;
      }
      return None;
    }

    /** `create_upload_file_types`. */
    method CreateUploadFileTypes(mimeType: string, extension: string, name: Option<string>)
      returns (r: Result<Option<FileType>>)
      modifies this
      ensures Reply(types, r) == Created(old(types), mimeType, extension, name)
      ensures fileSize == old(fileSize)
    {
      var dup := ScanPair(types, mimeType, extension);
      if dup {
        return Err(Duplicated);
      }
      if types == [] {
        return Err(NoLastEntry);
      }
      var row := FileType(types[|types| - 1].id + 1, mimeType, extension, name);
      types := types + [row];
      r := Ok(Some(row));
    }

    /** `delete_upload_file_types`. */
    method DeleteUploadFileTypes(id: int) returns (r: Result<Option<FileType>>)
      modifies this
      ensures Reply(types, r) == Deleted(old(types), id)
      ensures fileSize == old(fileSize)
    {
      var found := Find(id);
      if found.None? {
        return Ok(None);
      }
      var e := types[found.value];
      types := RemoveFirst(types, e);
      r := Ok(Some(e));
    }

    /** `update_upload_file_types`. */
    method UpdateUploadFileTypes(id: int, p: Patch) returns (r: Result<Option<FileType>>)
      modifies this
      ensures Reply(types, r) == Updated(old(types), id, p)
      ensures fileSize == old(fileSize)
    {
      var found := Find(id);
      if found.None? {
        return Ok(None);
      }
      var e := types[found.value];
      RemoveFound(types, found.value);
      var index := FirstIndex(types, e);
      var rest := RemoveFirst(types, e);
      var m := Merged(e, p);
      var dup := ScanPair(rest, m.mimeType, m.extension);
      if dup {
        return Err(Duplicated);
      }
      types := rest[..index] + [m] + rest[index..];
      r := Ok(Some(m));
    }

    /** `update_upload_file_size`: only sizes from 0 to 100 are stored. */
    method UpdateUploadFileSize(size: int) returns (r: Outcome)
      modifies this
      ensures 0 <= size <= 100 ==> r == Pass && fileSize == Some(size)
      ensures !(0 <= size <= 100) ==> r == Fail(InvalidSize) && fileSize == old(fileSize)
      ensures types == old(types)
    {
      if size >= 0 && size <= 100 {
        fileSize := Some(size);
        r := Pass;
      } else {
        r := Fail(InvalidSize);
      }
    }

    /** `get_upload_file_distinct_name`. */
    method GetUploadFileDistinctName() returns (ret: seq<string>)
      ensures ret == DistinctNames(types)
    {
      ret := [];
      var k := 0;
      while k < |types|
        invariant 0 <= k <= |types|
        invariant ret == DistinctNames(types[..k])
      {
        assert types[..k + 1][..k] == types[..k];
        if types[k].name.Some? && types[k].name.value !in ret {
          ret := ret + [types[k].name.value];
        }
        k := k + 1;
      }
      assert types[..k] == types;
    }
  }
}
