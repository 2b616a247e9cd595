/** Project tags (`apis/resources/tag.py`): the tag table, its dictionary
    views, and the removal of a deleted tag from the tag lists of issues. */
module Tag {
  import opened Wrappers
  import opened PyList

  datatype TagRow = TagRow(id: int, projectId: int, name: string)

  /** A tag as `row_to_dict` shows it: every column but project_id. */
  datatype TagView = TagView(id: int, name: string)

  /** An issue's row of the issue_tag table. */
  datatype IssueTagRow = IssueTagRow(issueId: int, tagIds: seq<int>)

  /** The argument of `get_tags_for_dict`: absent, an int, a list, or any
      other value. */
  datatype ProjectFilter = AnyProject | OneProject(projectId: int) | Projects(projectIds: seq<int>) | OtherArg

  /** `row_to_dict`: `None` stays `None`, otherwise project_id is dropped. */
  function RowToDict(row: Option<TagRow>): (r: Option<TagView>)
    ensures r.None? <==> row.None?
    ensures r.Some? ==> r.value.id == row.value.id && r.value.name == row.value.name
  {
    match row
    case None => None
    case Some(t) => Some(TagView(t.id, t.name))
  }

  /** Rows that differ only in their project read the same. */
  lemma RowToDictIgnoresProject(t: TagRow, projectId: int)
    ensures RowToDict(Some(t.(projectId := projectId))) == RowToDict(Some(t))
  {
  }

  /** The tag rows a filter selects. */
  predicate Selects(filter: ProjectFilter, t: TagRow) {
    match filter
    case AnyProject => true
    case OneProject(p) => t.projectId == p
    case Projects(ps) => t.projectId in ps
    case OtherArg => false
  }

  /** `get_tags_for_dict`: the selected tags keyed by id. */
  function TagsDict(tags: seq<TagRow>, filter: ProjectFilter): map<int, TagView> {
    if tags == [] then map[]
    else
      var t := tags[|tags| - 1];
      var init := TagsDict(tags[..|tags| - 1], filter);
      if Selects(filter, t) then init[t.id := TagView(t.id, t.name)] else init
  }

  predicate UniqueTagIds(tags: seq<TagRow>) {
    forall i, j :: 0 <= i < j < |tags| ==> tags[i].id != tags[j].id
  }

  /** With unique ids, the dictionary holds exactly the selected tags, each
      under its own id; any other kind of argument gives {}. */
  lemma {:induction false} TagsDictMeaning(tags: seq<TagRow>, filter: ProjectFilter)
    requires UniqueTagIds(tags)
    ensures forall id :: id in TagsDict(tags, filter) <==>
              exists k :: 0 <= k < |tags| && tags[k].id == id && Selects(filter, tags[k])
    ensures forall k :: 0 <= k < |tags| && Selects(filter, tags[k]) ==>
              TagsDict(tags, filter)[tags[k].id] == TagView(tags[k].id, tags[k].name)
    ensures filter.OtherArg? ==> TagsDict(tags, filter) == map[]
  {
    if tags != [] {
      var init := tags[..|tags| - 1];
      assert forall k :: 0 <= k < |init| ==> init[k] == tags[k];
      assert UniqueTagIds(init);
      TagsDictMeaning(init, filter);
    }
  }

  /** The tag rows left after deleting every row with that id. */
  function Without(tags: seq<TagRow>, tagId: int): (r: seq<TagRow>)
    ensures forall t :: t in r <==> t in tags && t.id != tagId
  {
    if tags == [] then []
    else
      var init := tags[..|tags| - 1];
      assert tags == init + [tags[|tags| - 1]];
      Without(init, tagId) + (if tags[|tags| - 1].id == tagId then [] else [tags[|tags| - 1]])
  }

  /** An issue row with one occurrence of the tag taken out of its list. */
  function Strip(row: IssueTagRow, tagId: int): (r: IssueTagRow)
    ensures r.issueId == row.issueId
    ensures tagId !in row.tagIds ==> r == row
    ensures tagId in row.tagIds ==> |r.tagIds| == |row.tagIds| - 1
  {
    row.(tagIds := RemoveFirst(row.tagIds, tagId))
  }

  /** The issue rows after `delete_tag`. */
  function Stripped(rows: seq<IssueTagRow>, tagId: int): (r: seq<IssueTagRow>)
    ensures |r| == |rows| && forall k :: 0 <= k < |rows| ==> r[k] == Strip(rows[k], tagId)
  {
    seq(|rows|, k requires 0 <= k < |rows| => Strip(rows[k], tagId))
  }

  /** Lists holding the tag lose exactly one occurrence of it, in place;
      lists without it and every issue id stay as they were. */
  lemma StrippedMeaning(rows: seq<IssueTagRow>, tagId: int, k: nat)
    requires k < |rows|
    ensures Stripped(rows, tagId)[k].issueId == rows[k].issueId
    ensures tagId !in rows[k].tagIds ==> Stripped(rows, tagId)[k] == rows[k]
    ensures tagId in rows[k].tagIds ==>
      var i := FirstIndex(rows[k].tagIds, tagId);
      Stripped(rows, tagId)[k].tagIds == rows[k].tagIds[..i] + rows[k].tagIds[i + 1..] &&
      multiset(Stripped(rows, tagId)[k].tagIds) == multiset(rows[k].tagIds) - multiset{tagId}
  {
    if tagId in rows[k].tagIds {
      RemoveFirstSplice(rows[k].tagIds, tagId);
      RemoveFirstMultiset(rows[k].tagIds, tagId);
    }
  }

  /** The indices of the issue rows that hold the tag, increasing. */
  function Holding(rows: seq<IssueTagRow>, tagId: int): (r: seq<nat>)
    ensures forall m :: 0 <= m < |r| ==> r[m] < |rows| && tagId in rows[r[m]].tagIds
    ensures forall m, n :: 0 <= m < n < |r| ==> r[m] < r[n]
    ensures forall k :: 0 <= k < |rows| && tagId in rows[k].tagIds ==> k in r
  {
    if rows == [] then []
    else
      var init := Holding(rows[..|rows| - 1], tagId);
      assert forall k :: 0 <= k < |rows| - 1 ==> rows[..|rows| - 1][k] == rows[k];
      init + (if tagId in rows[|rows| - 1].tagIds then [|rows| - 1] else [])
  }

  /** The `mapping` dict the first loop of `delete_tag` builds, as its
      items in insertion order. */
  function Pending(rows: seq<IssueTagRow>, tagId: int): (r: seq<(int, seq<int>)>)
    ensures |r| == |Holding(rows, tagId)|
    ensures forall m :: 0 <= m < |r| ==>
      r[m] == (rows[Holding(rows, tagId)[m]].issueId, RemoveFirst(rows[Holding(rows, tagId)[m]].tagIds, tagId))
  {
    if rows == [] then []
    else
      var init := rows[..|rows| - 1];
      var prev := Pending(init, tagId);
      assert forall k :: 0 <= k < |init| ==> init[k] == rows[k];
      var last := rows[|rows| - 1];
      prev + (if tagId in last.tagIds then [(last.issueId, RemoveFirst(last.tagIds, tagId))] else [])
  }

  predicate UniqueIssueIds(rows: seq<IssueTagRow>) {
    forall i, j :: 0 <= i < j < |rows| ==> rows[i].issueId != rows[j].issueId
  }

  /** `IssueTag.query.get(issue_id)`: the row with that primary key. */
  function IssueIndex(rows: seq<IssueTagRow>, issueId: int): (k: nat)
    requires exists k :: 0 <= k < |rows| && rows[k].issueId == issueId
    ensures k < |rows| && rows[k].issueId == issueId
  {
    if rows[0].issueId == issueId then 0
    else
      assert exists k :: 0 <= k < |rows[1..]| && rows[1..][k].issueId == issueId by {
        var k :| 0 <= k < |rows| && rows[k].issueId == issueId;
        assert rows[1..][k - 1] == rows[k];
      }
      1 + IssueIndex(rows[1..], issueId)
  }

  /** The tag and issue_tag tables; `nextId` is the next tag id the
      database sequence hands out. */
  class TagStore {
    var tags: seq<TagRow>
    var nextId: int
    var issueTags: seq<IssueTagRow>

    /** Tag ids and issue ids are primary keys; every tag id is below the
        next one the sequence gives. */
    ghost predicate Valid()
      reads this
    {
      UniqueTagIds(tags) && UniqueIssueIds(issueTags) &&
      forall k :: 0 <= k < |tags| ==> tags[k].id < nextId
    }

    constructor ()
      ensures Valid() && tags == [] && issueTags == [] && nextId == 1
    {
      tags := [];
      nextId := 1;
      issueTags := [];
    }

    /** `get_tags_for_dict`. */
    method GetTagsForDict(filter: ProjectFilter) returns (output: map<int, TagView>)
      ensures output == TagsDict(tags, filter)
    {
      output := map[];
      if filter.OtherArg? {
        assert forall k :: 0 <= k <= |tags| ==> TagsDict(tags[..k], filter) == map[] by {
          forall k | 0 <= k <= |tags| ensures TagsDict(tags[..k], filter) == map[] {
            NothingSelected(tags[..k], filter);
          }
        }
        assert tags[..|tags|] == tags;
        return;
      }
      for i := 0 to |tags|
        invariant output == TagsDict(tags[..i], filter)
      {
        assert tags[..i + 1][..i] == tags[..i];
        var t := tags[i];
        if Selects(filter, t) {
          output := output[t.id := TagView(t.id, t.name)];
        }
      }
      assert tags[..|tags|] == tags;
    }

    /** `create_tags`: no name inserts nothing and returns `None`. */
    method CreateTags(projectId: int, name: Option<string>) returns (r: Option<int>)
      requires Valid()
      modifies this
      ensures Valid() && issueTags == old(issueTags)
      ensures name.None? ==> r.None? && tags == old(tags) && nextId == old(nextId)
      ensures name.Some? ==> r == Some(old(nextId)) && nextId == old(nextId) + 1 &&
                             tags == old(tags) + [TagRow(old(nextId), projectId, name.value)]
    {
      if name.None? {
        return None;
      }
      tags := tags + [TagRow(nextId, projectId, name.value)];
      r := Some(nextId);
      nextId := nextId + 1;
    }

    /** `delete_tag`: drops the tag rows, then rewrites the tag list of every
        issue that held the tag, with one occurrence removed. */
    method DeleteTag(tagId: int) returns (r: int)
      requires Valid()
      modifies this
      ensures Valid() && r == tagId && nextId == old(nextId)
      ensures tags == Without(old(tags), tagId)
      ensures issueTags == Stripped(old(issueTags), tagId)
    {
      WithoutUnique(tags, tagId);
      StrippedUnique(issueTags, tagId);
      var mapping := CollectMapping(issueTags, tagId);
      var rows := WriteBack(issueTags, tagId, mapping);
      tags := Without(tags, tagId);
      issueTags := rows;
      r := tagId;
    }
  }

  /** The first loop of `delete_tag`: for each issue row holding the tag, its
      issue id and its tag list with the tag removed. */
  method CollectMapping(rows: seq<IssueTagRow>, tagId: int) returns (mapping: seq<(int, seq<int>)>)
    ensures mapping == Pending(rows, tagId)
  {
    mapping := [];
    for i := 0 to |rows|
      invariant mapping == Pending(rows[..i], tagId)
    {
      assert rows[..i + 1][..i] == rows[..i];
      var row := rows[i];
      if tagId in row.tagIds {
        mapping := mapping + [(row.issueId, RemoveFirst(row.tagIds, tagId))];
      }
    }
    assert rows[..|rows|] == rows;
  }

  /** The second loop of `delete_tag`: each issue of the mapping, looked up by
      its primary key, gets its new tag list. */
  method WriteBack(rows: seq<IssueTagRow>, tagId: int, mapping: seq<(int, seq<int>)>) returns (cur: seq<IssueTagRow>)
    requires UniqueIssueIds(rows) && mapping == Pending(rows, tagId)
    ensures cur == Stripped(rows, tagId)
  {
    cur := rows;
    for j := 0 to |mapping|
      invariant Rewritten(rows, tagId, cur, j)
    {
      var issueId := mapping[j].0;
      RewriteStep(rows, tagId, cur, j);
      var p := IssueIndex(cur, issueId);
      cur := cur[p := cur[p].(tagIds := mapping[j].1)];
    }
    RewriteDone(rows, tagId, cur);
  }

  /** Stripping a tag keeps the issue ids, so they stay unique. */
  lemma StrippedUnique(rows: seq<IssueTagRow>, tagId: int)
    requires UniqueIssueIds(rows)
    ensures UniqueIssueIds(Stripped(rows, tagId))
  {
    forall k | 0 <= k < |rows| ensures Stripped(rows, tagId)[k].issueId == rows[k].issueId {
      StrippedMeaning(rows, tagId, k);
    }
  }

  /** The issue rows once the first `j` items of the mapping are written back. */
  ghost predicate Rewritten(rows: seq<IssueTagRow>, tagId: int, cur: seq<IssueTagRow>, j: int) {
    0 <= j <= |Holding(rows, tagId)| && |cur| == |rows| &&
    forall k :: 0 <= k < |rows| ==>
      cur[k] == if k in Holding(rows, tagId)[..j] then Strip(rows[k], tagId) else rows[k]
  }

  lemma RewriteStep(rows: seq<IssueTagRow>, tagId: int, cur: seq<IssueTagRow>, j: int)
    requires UniqueIssueIds(rows) && Rewritten(rows, tagId, cur, j) && j < |Pending(rows, tagId)|
    ensures exists k :: 0 <= k < |cur| && cur[k].issueId == Pending(rows, tagId)[j].0
    ensures var p := IssueIndex(cur, Pending(rows, tagId)[j].0);
      p == Holding(rows, tagId)[j] &&
      Rewritten(rows, tagId, cur[p := cur[p].(tagIds := Pending(rows, tagId)[j].1)], j + 1)
  {
    var idx := Holding(rows, tagId);
    var id := Pending(rows, tagId)[j].0;
    assert cur[idx[j]].issueId == id;
    var p := IssueIndex(cur, id);
    assert cur[p].issueId == rows[p].issueId;
    assert p == idx[j];
    assert forall k :: k in idx[..j + 1] <==> k in idx[..j] || k == idx[j];
    assert idx[j] !in idx[..j];
  }

  lemma RewriteDone(rows: seq<IssueTagRow>, tagId: int, cur: seq<IssueTagRow>)
    requires Rewritten(rows, tagId, cur, |Holding(rows, tagId)|)
    ensures cur == Stripped(rows, tagId)
  {
    var idx := Holding(rows, tagId);
    assert idx[..|idx|] == idx;
    forall k | 0 <= k < |rows| ensures cur[k] == Strip(rows[k], tagId) {
      if k !in idx {
        assert tagId !in rows[k].tagIds;
      }
    }
  }

  lemma NothingSelected(tags: seq<TagRow>, filter: ProjectFilter)
    requires filter.OtherArg?
    ensures TagsDict(tags, filter) == map[]
  {
    if tags != [] {
      NothingSelected(tags[..|tags| - 1], filter);
    }
  }

  lemma WithoutUnique(tags: seq<TagRow>, tagId: int)
    requires UniqueTagIds(tags)
    ensures UniqueTagIds(Without(tags, tagId))
    ensures forall k :: 0 <= k < |Without(tags, tagId)| ==> Without(tags, tagId)[k] in tags
  {
    if tags != [] {
      var init := tags[..|tags| - 1];
      assert forall k :: 0 <= k < |init| ==> init[k] == tags[k];
      WithoutUnique(init, tagId);
      var w := Without(init, tagId);
      forall k | 0 <= k < |w| ensures w[k].id != tags[|tags| - 1].id {
        assert w[k] in init;
      }
    }
  }
}
