/** The issue helpers that do not talk to Redmine: tag-id normalisation, the
    "tracker needs a parent" rule, the walk over the cached issue family, the
    splitting of long issue-id filters, the filter values built from request
    arguments, and the rebuilding of a parent's child list. */
module Issue {
  import opened Wrappers
  import opened Strs
  import opened Redis
  import opened PyList

  // ---------------------------------------------------------------------------
  // check_tags_id_is_int

  predicate StrictlyIncreasing(xs: seq<int>) {
    forall i, j :: 0 <= i < j < |xs| ==> xs[i] < xs[j]
  }

  /** `[int(tag) for tag in tags]`; None when some `int()` raises. */
  function ParseAll(tags: seq<string>): (r: Option<seq<int>>)
    ensures r.Some? <==> forall i :: 0 <= i < |tags| ==> ParseInt(tags[i]).Some?
    ensures r.Some? ==> |r.value| == |tags|
    ensures r.Some? ==> forall i :: 0 <= i < |tags| ==> ParseInt(tags[i]) == Some(r.value[i])
  {
    if tags == [] then Some([])
    else
      var head := ParseInt(tags[0]);
      var tail := ParseAll(tags[1..]);
      assert forall i :: 0 <= i < |tags[1..]| ==> tags[1..][i] == tags[i + 1];
      if head.None? || tail.None? then None
      else Some([head.value] + tail.value)
  }

  /** Inserts `x` into a strictly increasing list, keeping it so. */
  function SortedInsert(xs: seq<int>, x: int): (r: seq<int>)
    requires StrictlyIncreasing(xs)
    ensures StrictlyIncreasing(r)
    ensures forall v :: v in r <==> v in xs || v == x
  {
    if xs == [] then [x]
    else if x < xs[0] then [x] + xs
    else if x == xs[0] then xs
    else
      var t := SortedInsert(xs[1..], x);
      assert forall v :: v in xs[1..] ==> xs[0] < v;
      assert forall k :: 0 <= k < |t| ==> xs[0] < t[k] by {
        forall k | 0 <= k < |t| ensures xs[0] < t[k] { assert t[k] in t; }
      }
      [xs[0]] + t
  }

  /** `sorted(set(xs))`. */
  function SortedSetOf(xs: seq<int>): (r: seq<int>)
    ensures StrictlyIncreasing(r)
    ensures forall v :: v in r <==> v in xs
  {
    if xs == [] then []
    else
      var init := xs[..|xs| - 1];
      assert xs == init + [xs[|xs| - 1]];
      SortedInsert(SortedSetOf(init), xs[|xs| - 1])
  }

  /** `check_tags_id_is_int`: the distinct integer values of the tags, sorted;
      the single empty tag stands for no tags. */
  function CheckTagsIdIsInt(tags: seq<string>): (r: Result<seq<int>>)
    ensures tags == [""] ==> r == Ok([])
    ensures tags != [""] ==> (r.Ok? <==> forall i :: 0 <= i < |tags| ==> ParseInt(tags[i]).Some?)
    ensures r.Err? ==> r.error.ValueErr?
    ensures r.Ok? ==> StrictlyIncreasing(r.value)
    ensures tags != [""] && r.Ok? ==>
      forall v :: v in r.value <==> exists i :: 0 <= i < |tags| && ParseInt(tags[i]) == Some(v)
  {
    if tags == [""] then Ok([])
    else match ParseAll(tags)
      case None => Err(ValueErr("invalid literal for int() with base 10"))
      case Some(vs) =>
        var r := SortedSetOf(vs);
        assert forall v :: v in r <==> exists i :: 0 <= i < |tags| && ParseInt(tags[i]) == Some(v) by {
          forall v ensures v in r <==> exists i :: 0 <= i < |tags| && ParseInt(tags[i]) == Some(v) {
            if v in r {
              var i :| 0 <= i < |vs| && vs[i] == v;
              assert ParseInt(tags[i]) == Some(v);
            }
          }
        }
        Ok(r)
  }

  // ---------------------------------------------------------------------------
  // check_trackers_in_update_issue

  /** A Redmine tracker as `get_issue_trackers` lists it. */
  datatype Tracker = Tracker(id: int, name: string)

  /** Python `x in ids` for a value that may be None. */
  predicate InIds(x: Option<int>, ids: seq<int>) {
    x.Some? && x.value in ids
  }

  /** The first tracker whose id equals `id`. */
  function FirstTracker(trackers: seq<Tracker>, id: Option<int>): (r: Option<Tracker>)
    ensures r.Some? ==> r.value in trackers && id == Some(r.value.id)
    ensures r.None? <==> forall t :: t in trackers ==> id != Some(t.id)
  {
    if trackers == [] then None
    else if id == Some(trackers[0].id) then Some(trackers[0])
    else FirstTracker(trackers[1..], id)
  }

  /** `check_trackers_in_update_issue`, with the tracker list Redmine returns as
      the parameter `trackers`. */
  function CheckTrackersInUpdateIssue(trackerId: Option<int>, need: seq<int>, updated: Option<int>,
                                      trackers: seq<Tracker>): (r: Outcome)
    ensures r.Fail? <==> updated.Some? && updated.value in need && exists t :: t in trackers && t.id == updated.value
    ensures r.Fail? ==> r.error.DevOps? && r.error.status == 400
    ensures updated.None? ==> r == Pass
  {
    var condition :=
      (!InIds(trackerId, need) && updated.Some? && InIds(updated, need))
      || (InIds(trackerId, need) && (updated.None? || InIds(updated, need)));
    if condition then
      match FirstTracker(trackers, updated)
      case Some(t) =>
        Fail(DevOps(400, "Modify of create issue with tacker_id:" + t.name + " must has father issue."))
      case None => Pass
    else Pass
  }

  // ---------------------------------------------------------------------------
  // get_all_sons_ids

  /** An insertion-ordered dictionary from issue ids, as Python's `dict`. */
  type Dict<V> = seq<(string, V)>

  function DictKeys<V>(d: Dict<V>): set<string> {
    if d == [] then {} else {d[0].0} + DictKeys(d[1..])
  }

  /** `d[k] = v`: replaces the value in place when `k` is a key, else appends. */
  function DictSet<V>(d: Dict<V>, k: string, v: V): (r: Dict<V>)
    ensures DictKeys(r) == DictKeys(d) + {k}
    ensures |r| == if k in DictKeys(d) then |d| else |d| + 1
  {
    if d == [] then [(k, v)]
    else if d[0].0 == k then [(k, v)] + d[1..]
    else [d[0]] + DictSet(d[1..], k, v)
  }

  lemma {:induction false} DictSetTwice<V>(d: Dict<V>, k: string, v1: V, v2: V)
    ensures DictSet(DictSet(d, k, v1), k, v2) == DictSet(d, k, v2)
  {
    if d != [] && d[0].0 != k {
      DictSetTwice(d[1..], k, v1, v2);
    }
  }

  /** The nested mapping `get_all_sons_ids` builds: each issue id maps to the
      mapping of its own children. */
  datatype IdTree = IdTree(kids: Dict<IdTree>)

  /** The cached families as child lists: `ChildIds` for every parent. */
  function Families(m: map<string, string>): (cm: map<string, seq<string>>)
    ensures forall p :: p in cm <==> p in m
    ensures forall p :: p in m ==> cm[p] == ChildIds(m, p)
  {
    map p | p in m :: Split(m[p], ",")
  }

  /** The children listed for `p`, none when it has no entry. */
  function Kids(cm: map<string, seq<string>>, p: string): seq<string> {
    if p in cm then cm[p] else []
  }

  /** Every parent in the child map has a rank above each of its children, so
      the map has no cycle (on a cycle the source recurses without end). */
  ghost predicate Ranked(cm: map<string, seq<string>>, rank: map<string, nat>) {
    forall p :: p in cm ==> p in rank && forall c :: c in Kids(cm, p) ==> c in rank && rank[c] < rank[p]
  }

  ghost predicate RankedBelow(sons: seq<string>, rank: map<string, nat>, bound: nat) {
    forall s :: s in sons ==> s in rank && rank[s] < bound
  }

  /** The ids `find_all` appends, starting at `id`: pre-order, repeats included. */
  ghost function Preorder(cm: map<string, seq<string>>, id: string, rank: map<string, nat>): (r: seq<string>)
    requires Ranked(cm, rank) && (id in cm ==> id in rank)
    ensures |r| >= 1 && r[0] == id
    decreases if id in rank then rank[id] else 0, 1, 0
  {
    if id !in cm then [id] else [id] + PreorderAll(cm, Kids(cm, id), rank, rank[id])
  }

  /** The ids appended while walking the sons in order. */
  ghost function PreorderAll(cm: map<string, seq<string>>, sons: seq<string>, rank: map<string, nat>, bound: nat): seq<string>
    requires Ranked(cm, rank) && RankedBelow(sons, rank, bound)
    decreases bound, 0, |sons|
  {
    if sons == [] then []
    else PreorderAll(cm, sons[..|sons| - 1], rank, bound) + Preorder(cm, sons[|sons| - 1], rank)
  }

  /** The mapping `find_all` fills in for `id`. */
  ghost function TreeOf(cm: map<string, seq<string>>, id: string, rank: map<string, nat>): IdTree
    requires Ranked(cm, rank) && (id in cm ==> id in rank)
    decreases if id in rank then rank[id] else 0, 1, 0
  {
    if id !in cm then IdTree([]) else IdTree(KidsOf(cm, Kids(cm, id), rank, rank[id]))
  }

  /** The children mapping after the sons have been walked in order. */
  ghost function KidsOf(cm: map<string, seq<string>>, sons: seq<string>, rank: map<string, nat>, bound: nat): (r: Dict<IdTree>)
    requires Ranked(cm, rank) && RankedBelow(sons, rank, bound)
    ensures DictKeys(r) == set s | s in sons
    decreases bound, 0, |sons|
  {
    if sons == [] then []
    else
      var last := sons[|sons| - 1];
      var init := sons[..|sons| - 1];
      assert sons == init + [last];
      DictSet(KidsOf(cm, init, rank, bound), last, TreeOf(cm, last, rank))
  }

  /** One step of the walk over the sons: the next son's visit and subtree. */
  lemma WalkStep(cm: map<string, seq<string>>, sons: seq<string>, rank: map<string, nat>, bound: nat, k: nat)
    requires Ranked(cm, rank) && RankedBelow(sons, rank, bound) && k < |sons|
    ensures RankedBelow(sons[..k], rank, bound) && RankedBelow(sons[..k + 1], rank, bound)
    ensures PreorderAll(cm, sons[..k + 1], rank, bound) == PreorderAll(cm, sons[..k], rank, bound) + Preorder(cm, sons[k], rank)
    ensures KidsOf(cm, sons[..k + 1], rank, bound) == DictSet(KidsOf(cm, sons[..k], rank, bound), sons[k], TreeOf(cm, sons[k], rank))
  {
    assert sons[..k + 1][..k] == sons[..k];
    assert forall s :: s in sons[..k + 1] ==> s in sons;
  }

  /** The nested `find_all`: appends `id` to the visited list, then walks its
      children. */
  method FindAll(m: map<string, string>, id: string, ghost rank: map<string, nat>, visited: seq<string>)
    returns (tree: IdTree, out: seq<string>)
    requires Ranked(Families(m), rank) && (id in m ==> id in rank)
    ensures out == visited + Preorder(Families(m), id, rank)
    ensures tree == TreeOf(Families(m), id, rank)
    decreases if id in rank then rank[id] else 0, 1
  {
    out := visited + [id];
    if id !in m {
      tree := IdTree([]);
      return;
    }
    var sons := Split(m[id], ",");
    assert sons == Kids(Families(m), id);
    var kids;
    AppendAssoc(visited, [id], PreorderAll(Families(m), sons, rank, rank[id]));
    kids, out := WalkSons(m, sons, rank, rank[id], out);
    tree := IdTree(kids);
  }

  /** `find_all`'s loop over the sons of one issue. */
  method WalkSons(m: map<string, string>, sons: seq<string>, ghost rank: map<string, nat>, ghost bound: nat,
                  visited: seq<string>)
    returns (kids: Dict<IdTree>, out: seq<string>)
    requires Ranked(Families(m), rank) && RankedBelow(sons, rank, bound)
    ensures out == visited + PreorderAll(Families(m), sons, rank, bound)
    ensures kids == KidsOf(Families(m), sons, rank, bound)
    decreases bound, 0
  {
    kids := [];
    out := visited;
    for k := 0 to |sons|
      invariant out == visited + PreorderAll(Families(m), sons[..k], rank, bound)
      invariant kids == KidsOf(Families(m), sons[..k], rank, bound)
    {
      WalkStep(Families(m), sons, rank, bound, k);
      AppendAssoc(visited, PreorderAll(Families(m), sons[..k], rank, bound), Preorder(Families(m), sons[k], rank));
      kids, out := VisitSon(m, sons[k], rank, kids, out);
    }
    assert sons[..|sons|] == sons;
  }

  /** One turn of `find_all`'s loop: stores an empty mapping under the son,
      walks the son, and the mapping stored under it is the one filled in. */
  method VisitSon(m: map<string, string>, son: string, ghost rank: map<string, nat>,
                  kids: Dict<IdTree>, visited: seq<string>)
    returns (kids': Dict<IdTree>, out: seq<string>)
    requires Ranked(Families(m), rank) && son in rank
    ensures out == visited + Preorder(Families(m), son, rank)
    ensures kids' == DictSet(kids, son, TreeOf(Families(m), son, rank))
    decreases rank[son], 2
  {
    kids' := DictSet(kids, son, IdTree([]));
    var sub;
    sub, out := FindAll(m, son, rank, visited);
    DictSetTwice(kids, son, IdTree([]), sub);
    kids' := DictSet(kids', son, sub);
  }

  /** `get_all_sons_ids`: the mapping `{main: tree}` and the visited ids. */
  method GetAllSonsIds(m: map<string, string>, main: string, ghost rank: map<string, nat>)
    returns (mapping: Dict<IdTree>, existIds: seq<string>)
    requires Ranked(Families(m), rank) && (main in m ==> main in rank)
    ensures mapping == [(main, TreeOf(Families(m), main, rank))]
    ensures existIds == Preorder(Families(m), main, rank)
  {
    var tree;
    tree, existIds := FindAll(m, main, rank, []);
    mapping := [(main, tree)];
  }

  /** Some id listed before position `j` has `xs[j]` among its children. */
  ghost predicate HasParentBefore(cm: map<string, seq<string>>, xs: seq<string>, j: int)
    requires 0 <= j < |xs|
  {
    exists i :: 0 <= i < j && xs[j] in Kids(cm, xs[i])
  }

  /** Every id after the first is a child of an id listed before it. */
  ghost predicate ParentsFirst(cm: map<string, seq<string>>, xs: seq<string>) {
    forall j :: 0 < j < |xs| ==> HasParentBefore(cm, xs, j)
  }

  /** Every id is a child of `p` or of an id listed before it. */
  ghost predicate ParentsFirstUnder(cm: map<string, seq<string>>, xs: seq<string>, p: string) {
    forall j :: 0 <= j < |xs| ==> xs[j] in Kids(cm, p) || HasParentBefore(cm, xs, j)
  }

  /** Prefixing the parent of every unexplained id explains them all. */
  lemma ConsParentsFirst(cm: map<string, seq<string>>, p: string, rest: seq<string>)
    requires ParentsFirstUnder(cm, rest, p)
    ensures ParentsFirst(cm, [p] + rest)
  {
    var xs := [p] + rest;
    forall j | 0 < j < |xs| ensures HasParentBefore(cm, xs, j) {
      assert xs[j] == rest[j - 1];
      if rest[j - 1] in Kids(cm, p) {
        assert xs[0] == p;
        assert xs[j] in Kids(cm, xs[0]);
      } else {
        var i :| 0 <= i < j - 1 && rest[j - 1] in Kids(cm, rest[i]);
        assert xs[i + 1] == rest[i];
        assert xs[j] in Kids(cm, xs[i + 1]);
      }
    }
  }

  /** Appending the walk from a child of `p` keeps every id explained. */
  lemma AppendParentsFirst(cm: map<string, seq<string>>, p: string, a: seq<string>, b: seq<string>)
    requires ParentsFirstUnder(cm, a, p)
    requires ParentsFirst(cm, b) && |b| > 0 && b[0] in Kids(cm, p)
    ensures ParentsFirstUnder(cm, a + b, p)
  {
    var xs := a + b;
    forall j | 0 <= j < |xs|
      ensures xs[j] in Kids(cm, p) || HasParentBefore(cm, xs, j)
    {
      if j < |a| {
        assert xs[j] == a[j];
        if a[j] !in Kids(cm, p) {
          var i :| 0 <= i < j && a[j] in Kids(cm, a[i]);
          assert xs[i] == a[i];
        }
      } else if j > |a| {
        var jb := j - |a|;
        assert xs[j] == b[jb];
        assert HasParentBefore(cm, b, jb);
        var i :| 0 <= i < jb && b[jb] in Kids(cm, b[i]);
        assert xs[|a| + i] == b[i];
      }
    }
  }

  /** The walk lists every child after some parent of it. */
  lemma {:induction false} PreorderParentsFirst(cm: map<string, seq<string>>, id: string, rank: map<string, nat>)
    requires Ranked(cm, rank) && (id in cm ==> id in rank)
    ensures ParentsFirst(cm, Preorder(cm, id, rank))
    decreases if id in rank then rank[id] else 0, 1, 0
  {
    if id in cm {
      var sons := Kids(cm, id);
      PreorderAllParentsFirst(cm, sons, rank, rank[id], id);
      ConsParentsFirst(cm, id, PreorderAll(cm, sons, rank, rank[id]));
    }
  }

  lemma {:induction false} PreorderAllParentsFirst(cm: map<string, seq<string>>, sons: seq<string>,
                                                  rank: map<string, nat>, bound: nat, p: string)
    requires Ranked(cm, rank) && RankedBelow(sons, rank, bound)
    requires forall s :: s in sons ==> s in Kids(cm, p)
    ensures ParentsFirstUnder(cm, PreorderAll(cm, sons, rank, bound), p)
    decreases bound, 0, |sons|
  {
    if sons != [] {
      var init := sons[..|sons| - 1];
      var last := sons[|sons| - 1];
      assert forall s :: s in init ==> s in sons;
      PreorderAllParentsFirst(cm, init, rank, bound, p);
      PreorderParentsFirst(cm, last, rank);
      AppendParentsFirst(cm, p, PreorderAll(cm, init, rank, bound), Preorder(cm, last, rank));
    }
  }

  /** What `get_all_sons_ids` promises: the main id comes first, every other id
      is listed after a parent of it, and the mapping's top key is the main id
      with exactly its children as keys beneath it. */
  lemma AllSonsIdsShape(m: map<string, string>, main: string, rank: map<string, nat>)
    requires Ranked(Families(m), rank) && (main in m ==> main in rank)
    ensures var ids := Preorder(Families(m), main, rank);
      ids[0] == main && forall j :: 0 < j < |ids| ==> exists i :: 0 <= i < j && ids[j] in ChildIds(m, ids[i])
    ensures DictKeys(TreeOf(Families(m), main, rank).kids) == set s | s in ChildIds(m, main)
  {
    var cm := Families(m);
    var ids := Preorder(cm, main, rank);
    PreorderParentsFirst(cm, main, rank);
    forall j | 0 < j < |ids| ensures exists i :: 0 <= i < j && ids[j] in ChildIds(m, ids[i]) {
      assert HasParentBefore(cm, ids, j);
      var i :| 0 <= i < j && ids[j] in Kids(cm, ids[i]);
      assert Kids(cm, ids[i]) == ChildIds(m, ids[i]);
    }
    assert Kids(cm, main) == ChildIds(m, main);
  }

  // ---------------------------------------------------------------------------
  // handle_exceed_limit_length_default_filter

  /** A value in a Redmine filter dictionary. */
  datatype FVal = FStr(s: string) | FInt(i: int) | FList(xs: seq<string>)

  type Filters = map<string, FVal>

  const ChunkSize: nat := 200

  function Min(a: int, b: int): int { if a < b then a else b }

  /** The filter copies for `ids`, 200 ids each, in order. */
  function Chunks(filters: Filters, ids: seq<string>): seq<Filters>
    decreases |ids|
  {
    if ids == [] then []
    else
      var n := Min(ChunkSize, |ids|);
      [filters["issue_id" := FStr(Join(ids[..n], ","))]] + Chunks(filters, ids[n..])
  }

  /** `handle_exceed_limit_length_default_filter`: appends one copy of the
      filter per 200 ids to `acc`, each with those ids as its "issue_id". */
  method HandleExceedLimitLengthDefaultFilter(filters: Filters, ids: seq<string>, acc: seq<Filters>)
    returns (r: seq<Filters>)
    ensures r == acc + Chunks(filters, ids)
    decreases |ids|
  {
    if ids == [] {
      return acc;
    }
    var copy := filters["issue_id" := FStr(Join(ids[..Min(ChunkSize, |ids|)], ","))];
    r := HandleExceedLimitLengthDefaultFilter(filters, ids[Min(ChunkSize, |ids|)..], acc + [copy]);
  }

  /** The ids of a filter copy. */
  function IssueIds(f: Filters): seq<string> {
    if "issue_id" in f && f["issue_id"].FStr? then Split(f["issue_id"].s, ",") else []
  }

  /** The ids of every copy, concatenated in order. */
  function AllIssueIds(fs: seq<Filters>): seq<string> {
    if fs == [] then [] else IssueIds(fs[0]) + AllIssueIds(fs[1..])
  }

  /** There are ceil(n / 200) copies. */
  lemma {:induction false} ChunksCount(filters: Filters, ids: seq<string>)
    ensures |Chunks(filters, ids)| == (|ids| + ChunkSize - 1) / ChunkSize
    decreases |ids|
  {
    if ids != [] {
      var n := Min(ChunkSize, |ids|);
      ChunksCount(filters, ids[n..]);
    }
  }

  /** Each copy is the original filter with only "issue_id" replaced, by at
      least one and at most 200 ids. */
  lemma {:induction false} ChunksShape(filters: Filters, ids: seq<string>)
    requires forall k :: 0 <= k < |ids| ==> ',' !in ids[k]
    ensures forall c :: c in Chunks(filters, ids) ==>
      c - {"issue_id"} == filters - {"issue_id"} && 1 <= |IssueIds(c)| <= ChunkSize
    decreases |ids|
  {
    if ids != [] {
      var n := Min(ChunkSize, |ids|);
      var c := filters["issue_id" := FStr(Join(ids[..n], ","))];
      SplitJoin(ids[..n], ',');
      assert IssueIds(c) == ids[..n];
      assert c - {"issue_id"} == filters - {"issue_id"};
      ChunksShape(filters, ids[n..]);
    }
  }

  /** Concatenated in order, the copies give the ids back. */
  lemma {:induction false} ChunksIds(filters: Filters, ids: seq<string>)
    requires forall k :: 0 <= k < |ids| ==> ',' !in ids[k]
    ensures AllIssueIds(Chunks(filters, ids)) == ids
    decreases |ids|
  {
    if ids != [] {
      var n := Min(ChunkSize, |ids|);
      var c := filters["issue_id" := FStr(Join(ids[..n], ","))];
      var rest := ids[n..];
      var cs := Chunks(filters, ids);
      assert cs == [c] + Chunks(filters, rest);
      assert cs[0] == c && cs[1..] == Chunks(filters, rest);
      SplitJoin(ids[..n], ',');
      ChunksIds(filters, rest);
      assert ids == ids[..n] + rest;
    }
  }

  // ---------------------------------------------------------------------------
  // get_custom_filters_by_args (due date), handle_allowed_keywords,
  // generate_default_filter_value

  /** The "due_date" filter built from the two bounds; "" stands for an
      argument that is missing or empty, None for leaving the key unset. */
  function DueDateFilter(start: string, end: string): (r: Option<string>)
    ensures r.None? <==> start == "" && end == ""
  {
    if start != "" && end != "" then Some("><" + start + "|" + end)
    else if start != "" then Some(">=" + start)
    else if end != "" then Some("<=" + end)
    else None
  }

  /** Redmine reads the bounds back from the filter: the first two characters
      give the comparison and the rest the dates. */
  lemma DueDateBounds(start: string, end: string)
    requires '|' !in start && '|' !in end
    ensures start != "" && end != "" ==>
      DueDateFilter(start, end).value[..2] == "><" && Split(DueDateFilter(start, end).value[2..], "|") == [start, end]
    ensures start != "" && end == "" ==>
      DueDateFilter(start, end).value[..2] == ">=" && DueDateFilter(start, end).value[2..] == start
    ensures start == "" && end != "" ==>
      DueDateFilter(start, end).value[..2] == "<=" && DueDateFilter(start, end).value[2..] == end
  {
    if start != "" && end != "" {
      var v := DueDateFilter(start, end).value;
      assert v[2..] == Join([start, end], "|");
      SplitJoin([start, end], '|');
    }
  }

  /** `generate_default_filter_value`: Redmine's "none of these" filter. */
  function GenerateDefaultFilterValue(values: seq<string>): (r: Option<string>)
    ensures r.None? <==> values == []
    ensures r.Some? ==> |r.value| >= 1 && r.value[0] == '!'
  {
    if |values| == 0 then None else Some("!" + Join(values, "|"))
  }

  /** The excluded values are recovered by splitting after the '!'. */
  lemma DefaultFilterValueRoundTrip(values: seq<string>)
    requires |values| > 0 && forall k :: 0 <= k < |values| ==> '|' !in values[k]
    ensures Split(GenerateDefaultFilterValue(values).value[1..], "|") == values
  {
    assert GenerateDefaultFilterValue(values).value[1..] == Join(values, "|");
    SplitJoin(values, '|');
  }

  /** Python truthiness of an argument value. */
  predicate Truthy(v: FVal) {
    match v
    case FStr(s) => s != ""
    case FInt(i) => i != 0
    case FList(xs) => xs != []
  }

  /** `str.isdigit()` on ASCII text. */
  predicate IsDigitString(s: string) {
    |s| > 0 && AllDigits(s)
  }

  /** What `handle_allowed_keywords` does with one key. */
  datatype KeywordAction = Unset | SetTo(v: FVal) | Lookup

  const AllowedKeywords: seq<string> :=
    ["fixed_version_id", "status_id", "tracker_id", "assigned_to_id", "priority_id", "parent_id", "issue_id"]

  const IntKeywords: seq<string> := ["status_id", "priority_id", "tracker_id"]

  /** The rule for one allowed key whose argument is `v`. `Lookup` marks the
      branches that consult the project's users or versions. */
  function KeywordRule(key: string, v: FVal): (r: KeywordAction)
    ensures !Truthy(v) ==> r == Unset
    ensures Truthy(v) && v == FStr("null") ==> r == SetTo(FStr("!*"))
    ensures Truthy(v) && key == "status_id" && v == FStr("all") ==> r == SetTo(FStr("*"))
    ensures r.Lookup? <==>
      (Truthy(v) && v.FStr? && v != FStr("null") &&
       (key == "assigned_to_id" || (key == "fixed_version_id" && Contains(v.s, "null"))))
    ensures r.Unset? && Truthy(v) ==> v.FStr? && IsDigitString(v.s) && key !in IntKeywords
  {
    if !Truthy(v) then Unset
    else if v == FStr("null") then SetTo(FStr("!*"))
    else if key == "status_id" && v == FStr("all") then SetTo(FStr("*"))
    else if key == "assigned_to_id" && v.FStr? then Lookup
    else if key == "fixed_version_id" && v.FStr? then
      if Contains(v.s, "null") then Lookup
      else SetTo(FStr(Join(Split(v.s, "|"), "|")))
    else if v.FStr? && IsDigitString(v.s) then
      if key in IntKeywords then SetTo(FInt(DigitsValue(v.s))) else Unset
    else SetTo(v)
  }

  /** A fixed-version list without "null" is passed on unchanged, and any
      other truthy value that is neither special nor a digit string is copied. */
  lemma KeywordRuleCopies(key: string, v: FVal)
    requires Truthy(v) && v != FStr("null") && !(key == "status_id" && v == FStr("all"))
    requires key != "assigned_to_id" || !v.FStr?
    requires key == "fixed_version_id" && v.FStr? ==> !Contains(v.s, "null")
    requires key != "fixed_version_id" && v.FStr? ==> !IsDigitString(v.s)
    ensures KeywordRule(key, v) == SetTo(v)
  {
    if key == "fixed_version_id" && v.FStr? {
      JoinSplit(v.s, "|");
    }
  }

  /** A digit string becomes an integer exactly for the status, priority and
      tracker keys. */
  lemma KeywordRuleDigits(key: string, n: nat)
    requires key in AllowedKeywords && key != "assigned_to_id" && key != "fixed_version_id"
    ensures key in IntKeywords ==> KeywordRule(key, FStr(NatToString(n))) == SetTo(FInt(n))
    ensures key !in IntKeywords ==> KeywordRule(key, FStr(NatToString(n))) == Unset
  {
    DigitsValueOfNatToString(n);
    var s := NatToString(n);
    assert s != "null" by { assert IsDigit(s[0]); }
    assert s != "all" by { assert IsDigit(s[0]); }
  }

  /** What the back end answers about the project while the user and version
      lists are built: the ids `user_list_by_project` returns, the plan user id
      of every user `validate_plan_user_id` finds, and the ids of the project's
      Redmine versions as `get_all_id` lists them. */
  datatype Directory = Directory(projectUsers: seq<int>, planUserIds: map<int, int>, versionIds: seq<string>)

  const IntError := ValueErr("invalid literal for int() with base 10")
  const RemoveError := ValueErr("list.remove(x): x not in list")
  const ProjectIdMissing := Crash("KeyError: 'project_id'")

  /** `validate_plan_user_id`: the plan user id, or the 404 for an unknown user. */
  function PlanUserId(dir: Directory, id: int): (r: Result<int>)
    ensures r.Ok? <==> id in dir.planUserIds
    ensures r.Ok? ==> r.value == dir.planUserIds[id]
    ensures r.Err? ==> r.error == UnknownUser(id)
  {
    if id in dir.planUserIds then Ok(dir.planUserIds[id]) else Err(UnknownUser(id))
  }

  /** The 404 `validate_plan_user_id` raises for an unknown user. */
  function UnknownUser(id: int): Error {
    DevOps(404, "User id " + IntToString(id) + " does not exist.")
  }

  /** `ids[i]` is the first id that names no known user. */
  predicate FirstUnknown(dir: Directory, ids: seq<int>, i: int) {
    0 <= i < |ids| && ids[i] !in dir.planUserIds && forall j :: 0 <= j < i ==> ids[j] in dir.planUserIds
  }

  /** `[str(validate_plan_user_id(u)) for u in ids]`, raising at the first
      unknown user. */
  function PlanIdTexts(dir: Directory, ids: seq<int>): (r: Result<seq<string>>)
    ensures r.Ok? <==> forall i :: 0 <= i < |ids| ==> ids[i] in dir.planUserIds
    ensures r.Ok? ==> (|r.value| == |ids| &&
      forall i :: 0 <= i < |ids| ==> r.value[i] == IntToString(dir.planUserIds[ids[i]]))
    ensures r.Err? ==> exists i :: FirstUnknown(dir, ids, i) && r.error == UnknownUser(ids[i])
  {
    if ids == [] then Ok([])
    else match PlanUserId(dir, ids[0])
      case Err(e) => Err(e)
      case Ok(p) =>
        match PlanIdTexts(dir, ids[1..])
        case Err(e) =>
          var i :| FirstUnknown(dir, ids[1..], i) && e == UnknownUser(ids[1..][i]);
          UnknownShift(dir, ids, i);
          Err(e)
        case Ok(rest) =>
          assert forall i :: 1 <= i < |ids| ==> ids[i] == ids[1..][i - 1];
          Ok([IntToString(p)] + rest)
  }

  /** The first unknown id of the tail, after a known head, is the first of the list. */
  lemma UnknownShift(dir: Directory, ids: seq<int>, i: int)
    requires |ids| > 0 && ids[0] in dir.planUserIds && FirstUnknown(dir, ids[1..], i)
    ensures FirstUnknown(dir, ids, i + 1) && ids[i + 1] == ids[1..][i]
  {
    forall j | 0 <= j < i + 1 ensures ids[j] in dir.planUserIds {
      if j > 0 { assert ids[j] == ids[1..][j - 1]; }
    }
  }

  /** One id text of an assignee list is accepted when `int()` reads it and the
      user it names is known. */
  predicate KnownUserText(dir: Directory, t: string) {
    ParseInt(t).Some? && ParseInt(t).value in dir.planUserIds
  }

  /** Every id text of an assignee list is accepted. */
  predicate AllKnownUsers(dir: Directory, texts: seq<string>) {
    forall i :: 0 <= i < |texts| ==> KnownUserText(dir, texts[i])
  }

  /** `texts[i]` is the first id text that raises. */
  predicate FirstBadText(dir: Directory, texts: seq<string>, i: int) {
    0 <= i < |texts| && !KnownUserText(dir, texts[i]) && forall j :: 0 <= j < i ==> KnownUserText(dir, texts[j])
  }

  /** The exception a bad id text raises: `int()`'s ValueError or the 404. */
  function TextError(dir: Directory, t: string): Error {
    if ParseInt(t).None? then IntError else UnknownUser(ParseInt(t).value)
  }

  /** The loop `for id in ids: str(validate_plan_user_id(int(id)))`: each text
      is converted and looked up in turn, so the first bad text raises, with
      the ValueError of `int()` or the 404 of an unknown user. */
  function AssigneeTexts(dir: Directory, texts: seq<string>): (r: Result<seq<string>>)
    ensures r.Ok? <==> AllKnownUsers(dir, texts)
    ensures r.Ok? ==> (|r.value| == |texts| &&
      forall i :: 0 <= i < |texts| ==> r.value[i] == IntToString(dir.planUserIds[ParseInt(texts[i]).value]))
    ensures r.Err? ==> exists i :: FirstBadText(dir, texts, i) && r.error == TextError(dir, texts[i])
  {
    if texts == [] then Ok([])
    else
      KnownTextsCons(dir, texts);
      match ParseInt(texts[0])
      case None => assert FirstBadText(dir, texts, 0); Err(IntError)
      case Some(u) =>
        match PlanUserId(dir, u)
        case Err(e) => assert FirstBadText(dir, texts, 0); Err(e)
        case Ok(p) =>
          match AssigneeTexts(dir, texts[1..])
          case Err(e) =>
            var i :| FirstBadText(dir, texts[1..], i) && e == TextError(dir, texts[1..][i]);
            BadTextShift(dir, texts, i);
            Err(e)
          case Ok(rest) =>
            assert forall i :: 1 <= i < |texts| ==> texts[i] == texts[1..][i - 1];
            Ok([IntToString(p)] + rest)
  }

  /** A list of id texts is all accepted when its head and its tail are. */
  lemma KnownTextsCons(dir: Directory, texts: seq<string>)
    requires |texts| > 0
    ensures AllKnownUsers(dir, texts) <==> KnownUserText(dir, texts[0]) && AllKnownUsers(dir, texts[1..])
  {
    if KnownUserText(dir, texts[0]) && AllKnownUsers(dir, texts[1..]) {
      forall i | 0 <= i < |texts| ensures KnownUserText(dir, texts[i]) {
        if i > 0 { assert texts[i] == texts[1..][i - 1]; }
      }
    }
    if AllKnownUsers(dir, texts) {
      forall i | 0 <= i < |texts[1..]| ensures KnownUserText(dir, texts[1..][i]) {
        assert texts[1..][i] == texts[i + 1];
      }
    }
  }

  /** The first bad text of the tail, after an accepted head, is the first of the list. */
  lemma BadTextShift(dir: Directory, texts: seq<string>, i: int)
    requires |texts| > 0 && KnownUserText(dir, texts[0]) && FirstBadText(dir, texts[1..], i)
    ensures FirstBadText(dir, texts, i + 1) && texts[i + 1] == texts[1..][i]
  {
    forall j | 0 <= j < i + 1 ensures KnownUserText(dir, texts[j]) {
      if j > 0 { assert texts[j] == texts[1..][j - 1]; }
    }
  }

  /** `[x for x in all if x not in drop]`. */
  function Except<T(==,!new)>(all: seq<T>, drop: seq<T>): (r: seq<T>)
    ensures |r| <= |all|
    ensures forall x :: x in r <==> x in all && x !in drop
  {
    if all == [] then []
    else if all[0] in drop then Except(all[1..], drop)
    else [all[0]] + Except(all[1..], drop)
  }

  /** The value the user- and version-list branches of `handle_allowed_keywords`
      leave under `key` for the text `s`: `Some` value, `None` when the except
      list is empty and nothing is set, or the exception raised. A list holding
      "null" only as part of a word ("5|nullx") passes the substring test and
      then fails at `remove("null")`. */
  function LookupValue(before: Filters, key: string, s: string, args: map<string, FVal>, dir: Directory)
    : (r: Result<Option<FVal>>)
  {
    var parts := Split(s, "|");
    if key == "assigned_to_id" then
      if Contains(s, "null") then
        if "null" !in parts then Err(RemoveError)
        else match ParseAll(RemoveFirst(parts, "null"))
          case None => Err(IntError)
          case Some(filterUsers) =>
            if "project_id" !in args then Err(ProjectIdMissing)
            else match PlanIdTexts(dir, Except(dir.projectUsers, filterUsers))
              case Err(e) => Err(e)
              case Ok(texts) => Ok(if texts == [] then None else Some(FStr(GenerateDefaultFilterValue(texts).value)))
      else match AssigneeTexts(dir, parts)
        case Err(e) => Err(e)
        case Ok(texts) => Ok(Some(FStr(Join(texts, "|"))))
    else
      if "null" !in parts then Err(RemoveError)
      else if "project_id" !in before then Err(ProjectIdMissing)
      else
        var except := Except(dir.versionIds, RemoveFirst(parts, "null"));
        Ok(if except == [] then None else Some(FStr(GenerateDefaultFilterValue(except).value)))
  }

  /** An assignee list without "null" becomes the '|'-joined plan ids of the
      listed users, and raises exactly when some id is not a number or names
      no known user. */
  lemma AssigneesMeaning(before: Filters, s: string, args: map<string, FVal>, dir: Directory)
    requires !Contains(s, "null")
    ensures LookupValue(before, "assigned_to_id", s, args, dir).Ok? <==> AllKnownUsers(dir, Split(s, "|"))
    ensures var r := LookupValue(before, "assigned_to_id", s, args, dir);
      var parts := Split(s, "|");
      (r.Ok? ==> (exists texts :: r == Ok(Some(FStr(Join(texts, "|")))) && |texts| == |parts| &&
                                 forall i :: 0 <= i < |parts| ==> texts[i] == IntToString(dir.planUserIds[ParseInt(parts[i]).value])))
  {
    var parts := Split(s, "|");
    var r := AssigneeTexts(dir, parts);
    if r.Ok? {
      assert LookupValue(before, "assigned_to_id", s, args, dir) == Ok(Some(FStr(Join(r.value, "|"))));
    } else {
      assert LookupValue(before, "assigned_to_id", s, args, dir) == Err(r.error);
      var i :| FirstBadText(dir, parts, i) && r.error == TextError(dir, parts[i]);
      assert !KnownUserText(dir, parts[i]);
    }
  }

  /** An assignee list holding "null" filters for everybody of the project
      except the listed users: the plan ids of the others after '!', or no
      filter when nobody is left. */
  lemma UnassignedMeaning(before: Filters, s: string, args: map<string, FVal>, dir: Directory, users: seq<int>)
    requires "null" in Split(s, "|") && "project_id" in args
    requires ParseAll(RemoveFirst(Split(s, "|"), "null")) == Some(users)
    requires forall u :: u in dir.projectUsers ==> u in dir.planUserIds
    ensures var others := Except(dir.projectUsers, users);
      var r := LookupValue(before, "assigned_to_id", s, args, dir);
      r.Ok? && PlanIdTexts(dir, others).Ok? && (r.value.None? <==> others == []) &&
      (r.value.Some? ==> r.value == Some(FStr("!" + Join(PlanIdTexts(dir, others).value, "|"))))
  {
    NullPartOccurs(s, Split(s, "|"));
    var others := Except(dir.projectUsers, users);
    UnassignedValue(before, s, args, dir, users);
    ExceptKnown(dir, users);
    var texts := PlanIdTexts(dir, others);
    assert texts.Ok?;
    assert |texts.value| == |others|;
  }

  /** The users left after the exclusion are all known. */
  lemma ExceptKnown(dir: Directory, users: seq<int>)
    requires forall u :: u in dir.projectUsers ==> u in dir.planUserIds
    ensures forall i :: 0 <= i < |Except(dir.projectUsers, users)| ==> Except(dir.projectUsers, users)[i] in dir.planUserIds
  {
    var others := Except(dir.projectUsers, users);
    forall i | 0 <= i < |others| ensures others[i] in dir.planUserIds {
      var x := others[i];
      assert x in others;
      assert x in dir.projectUsers;
    }
  }

  /** The unassigned branch, once the listed ids are read, is the lookup of
      the remaining project users. */
  lemma UnassignedValue(before: Filters, s: string, args: map<string, FVal>, dir: Directory, users: seq<int>)
    requires Contains(s, "null") && "null" in Split(s, "|") && "project_id" in args
    requires ParseAll(RemoveFirst(Split(s, "|"), "null")) == Some(users)
    ensures LookupValue(before, "assigned_to_id", s, args, dir) ==
      match PlanIdTexts(dir, Except(dir.projectUsers, users))
      case Err(e) => Err(e)
      case Ok(texts) => Ok(if texts == [] then None else Some(FStr(GenerateDefaultFilterValue(texts).value)))
  {
  }

  /** A version list holding "null" filters for every version of the project
      except the listed ones, or sets nothing when none is left. */
  lemma VersionsExceptMeaning(before: Filters, s: string, args: map<string, FVal>, dir: Directory)
    requires "null" in Split(s, "|") && "project_id" in before
    ensures var others := Except(dir.versionIds, RemoveFirst(Split(s, "|"), "null"));
      LookupValue(before, "fixed_version_id", s, args, dir) ==
        Ok(if others == [] then None else Some(FStr("!" + Join(others, "|"))))
  {
  }

  /** A part equal to "null" is an occurrence of "null" in the text. */
  lemma NullPartOccurs(s: string, parts: seq<string>)
    requires parts == Split(s, "|") && "null" in parts
    ensures Contains(s, "null")
  {
    JoinSplit(s, "|");
    var k :| 0 <= k < |parts| && parts[k] == "null";
    JoinHasPart(parts, "|", k);
  }

  /** The joined text holds each of its parts. */
  lemma {:induction false} JoinHasPart(parts: seq<string>, sep: string, k: nat)
    requires k < |parts| && |parts[k]| > 0
    ensures Contains(Join(parts, sep), parts[k])
  {
    var j := Join(parts, sep);
    var p := parts[k];
    if k == 0 {
      if |parts| == 1 {
        assert j == p;
        assert OccursAt(j, p, 0);
      } else {
        assert j == p + sep + Join(parts[1..], sep);
        assert OccursAt(j, p, 0) by { assert j[0..|p|] == p; }
      }
    } else {
      var rest := Join(parts[1..], sep);
      assert j == parts[0] + sep + rest;
      assert parts[1..][k - 1] == p;
      JoinHasPart(parts[1..], sep, k - 1);
      var i :| 0 <= i <= |rest| - |p| && OccursAt(rest, p, i);
      var off := |parts[0] + sep|;
      assert |j| == off + |rest|;
      assert j[off..] == rest;
      assert j[off + i..off + i + |p|] == rest[i..i + |p|];
      assert OccursAt(j, p, off + i);
    }
  }

  /** Where `remove("null")` raises: "5|nullx" for the version filter. */
  lemma VersionInWordRaises(before: Filters, args: map<string, FVal>, dir: Directory)
    ensures LookupValue(before, "fixed_version_id", "5|nullx", args, dir) == Err(RemoveError)
  {
    InWordSplit();
    VersionRemoveRaises(before, "5|nullx", args, dir);
  }

  /** "5|nullx" splits into "5" and "nullx". */
  lemma InWordSplit()
    ensures Split("5|nullx", "|") == ["5", "nullx"]
  {
    var s := "5|nullx";
    assert s == "5" + ['|'] + "nullx";
    IndexOfFirst("5", '|', "nullx");
    assert s[..1] == "5" && s[2..] == "nullx";
    IndexOfAbsent("nullx", '|');
  }

  /** A version list without the item "null" raises at `remove("null")`. */
  lemma VersionRemoveRaises(before: Filters, s: string, args: map<string, FVal>, dir: Directory)
    requires "null" !in Split(s, "|")
    ensures LookupValue(before, "fixed_version_id", s, args, dir) == Err(RemoveError)
  {
  }

  /** A non-numeric assignee id raises the ValueError of `int()`. */
  lemma AssigneeNotNumberRaises(before: Filters, args: map<string, FVal>, dir: Directory)
    ensures LookupValue(before, "assigned_to_id", "a", args, dir) == Err(IntError)
  {
    assert !Contains("a", "null") by {
      forall i | 0 <= i ensures !OccursAt("a", "null", i) {}
    }
    assert Split("a", "|") == ["a"] by { IndexOfAbsent("a", '|'); }
    assert ParseInt("a") == None by {
      assert TrimLeft("a") == "a";
      assert TrimRight("a") == "a";
      assert !GroupedAt("a", 0);
    }
  }

  /** An assignee id that names no known user raises the 404 of
      `validate_plan_user_id`. */
  lemma AssigneeUnknownRaises(before: Filters, args: map<string, FVal>, dir: Directory)
    requires 7 !in dir.planUserIds
    ensures LookupValue(before, "assigned_to_id", "7", args, dir) == Err(UnknownUser(7))
  {
    assert !Contains("7", "null") by {
      forall i | 0 <= i ensures !OccursAt("7", "null", i) {}
    }
    SevenRead();
    UnknownSingle(before, "7", args, dir, 7);
  }

  /** One assignee id that `int()` reads but that names no user raises its 404. */
  lemma UnknownSingle(before: Filters, s: string, args: map<string, FVal>, dir: Directory, u: int)
    requires !Contains(s, "null") && '|' !in s && ParseInt(s) == Some(u) && u !in dir.planUserIds
    ensures LookupValue(before, "assigned_to_id", s, args, dir) == Err(UnknownUser(u))
  {
    assert Split(s, "|") == [s] by { IndexOfAbsent(s, '|'); }
    assert AssigneeTexts(dir, [s]) == Err(UnknownUser(u));
    AssigneesValue(before, s, args, dir);
  }

  /** `int("7")` is 7 and `str(7)` is "7". */
  lemma SevenRead()
    ensures ParseInt("7") == Some(7) && IntToString(7) == "7"
  {
    var s := "7";
    assert AllDigits(s);
    assert DigitsValue(s) == 7 by { assert s[..0] == []; }
  }

  /** Without "null" the assignee branch is the id-by-id lookup. */
  lemma AssigneesValue(before: Filters, s: string, args: map<string, FVal>, dir: Directory)
    requires !Contains(s, "null")
    ensures LookupValue(before, "assigned_to_id", s, args, dir) ==
      match AssigneeTexts(dir, Split(s, "|"))
      case Err(e) => Err(e)
      case Ok(texts) => Ok(Some(FStr(Join(texts, "|"))))
  {
  }

  /** The filters after applying the rule for `key`, or the exception its
      user or version lookup raises. */
  function KeywordStep(before: Filters, key: string, args: map<string, FVal>, dir: Directory): (r: Result<Filters>)
    ensures r.Ok? ==> forall k :: k != key ==> (k in r.value <==> k in before) && (k in before ==> r.value[k] == before[k])
    ensures key !in args || KeywordRule(key, args[key]).Unset? ==> r == Ok(before)
    ensures key in args && KeywordRule(key, args[key]).SetTo? ==> r.Ok? && key in r.value && r.value[key] == KeywordRule(key, args[key]).v
    ensures r.Err? ==> (key in args && KeywordRule(key, args[key]).Lookup? &&
      LookupValue(before, key, args[key].s, args, dir) == Err(r.error))
  {
    if key !in args then Ok(before)
    else match KeywordRule(key, args[key])
      case Unset => Ok(before)
      case SetTo(v) => Ok(before[key := v])
      case Lookup =>
        match LookupValue(before, key, args[key].s, args, dir)
        case Err(e) => Err(e)
        case Ok(None) => Ok(before)
        case Ok(Some(v)) => Ok(before[key := v])
  }

  /** The filters after applying the rules to the first `n` allowed keys, or
      the first exception raised. */
  function KeywordsApplied(filters: Filters, args: map<string, FVal>, dir: Directory, n: nat): (r: Result<Filters>)
    requires n <= |AllowedKeywords|
    ensures r.Ok? ==> forall k :: k !in AllowedKeywords[..n] ==> (k in r.value <==> k in filters) && (k in filters ==> r.value[k] == filters[k])
  {
    if n == 0 then Ok(filters)
    else
      var key := AllowedKeywords[n - 1];
      assert AllowedKeywords[..n] == AllowedKeywords[..n - 1] + [key];
      match KeywordsApplied(filters, args, dir, n - 1)
      case Err(e) => Err(e)
      case Ok(f) => KeywordStep(f, key, args, dir)
  }

  /** Once a key raises, the later keys are never handled. */
  lemma {:induction false} KeywordsErrKept(filters: Filters, args: map<string, FVal>, dir: Directory, n: nat, m: nat)
    requires n <= m <= |AllowedKeywords| && KeywordsApplied(filters, args, dir, n).Err?
    ensures KeywordsApplied(filters, args, dir, m) == KeywordsApplied(filters, args, dir, n)
    decreases m - n
  {
    if n < m {
      KeywordsErrKept(filters, args, dir, n, m - 1);
    }
  }

  /** `handle_allowed_keywords`. The project's users and versions are given as
      `dir`; an exception stops the loop and is returned. */
  method HandleAllowedKeywords(filters: Filters, args: map<string, FVal>, dir: Directory)
    returns (r: Result<Filters>)
    ensures r == KeywordsApplied(filters, args, dir, |AllowedKeywords|)
  {
    var out := filters;
    for n := 0 to |AllowedKeywords|
      invariant KeywordsApplied(filters, args, dir, n) == Ok(out)
    {
      var key := AllowedKeywords[n];
      if key in args {
        var action := KeywordRule(key, args[key]);
        match action {
          case Unset =>
          case SetTo(v) => out := out[key := v];
          case Lookup =>
            var found := LookupValue(out, key, args[key].s, args, dir);
            match found {
              case Err(e) =>
                KeywordsErrKept(filters, args, dir, n + 1, |AllowedKeywords|);
                return Err(e);
              case Ok(None) =>
              case Ok(Some(v)) => out := out[key := v];
            }
        }
      }
    }
    return Ok(out);
  }

  /** The keywords are distinct, so a later step never touches an earlier key. */
  lemma KeywordsDistinct()
    ensures forall i, j :: 0 <= i < j < |AllowedKeywords| ==> AllowedKeywords[i] != AllowedKeywords[j]
  {
  }

  /** Only a key whose rule needs the user or version lookup can raise; without
      one the loop always succeeds. */
  lemma {:induction false} KeywordsFailOnLookup(filters: Filters, args: map<string, FVal>, dir: Directory, n: nat)
    requires n <= |AllowedKeywords|
    ensures KeywordsApplied(filters, args, dir, n).Err? <==>
      exists i :: 0 <= i < n && AllowedKeywords[i] in args && KeywordRule(AllowedKeywords[i], args[AllowedKeywords[i]]).Lookup? &&
        KeywordsApplied(filters, args, dir, i).Ok? &&
        LookupValue(KeywordsApplied(filters, args, dir, i).value, AllowedKeywords[i], args[AllowedKeywords[i]].s, args, dir).Err?
  {
    if n > 0 {
      KeywordsFailOnLookup(filters, args, dir, n - 1);
      var prev := KeywordsApplied(filters, args, dir, n - 1);
      if prev.Err? {
        var i :| 0 <= i < n - 1 && AllowedKeywords[i] in args && KeywordRule(AllowedKeywords[i], args[AllowedKeywords[i]]).Lookup? &&
          KeywordsApplied(filters, args, dir, i).Ok? &&
          LookupValue(KeywordsApplied(filters, args, dir, i).value, AllowedKeywords[i], args[AllowedKeywords[i]].s, args, dir).Err?;
      } else {
        forall i | 0 <= i < n - 1 && AllowedKeywords[i] in args && KeywordRule(AllowedKeywords[i], args[AllowedKeywords[i]]).Lookup? &&
          KeywordsApplied(filters, args, dir, i).Ok?
          ensures LookupValue(KeywordsApplied(filters, args, dir, i).value, AllowedKeywords[i], args[AllowedKeywords[i]].s, args, dir).Ok?
        {
          if LookupValue(KeywordsApplied(filters, args, dir, i).value, AllowedKeywords[i], args[AllowedKeywords[i]].s, args, dir).Err? {
            assert false;
          }
        }
      }
    }
  }

  /** The value `handle_allowed_keywords` leaves under an allowed key, when it
      does not raise, is the rule's result for that key alone. */
  lemma {:induction false} KeywordsAppliedAt(filters: Filters, args: map<string, FVal>, dir: Directory,
                                             n: nat, i: nat)
    requires i < n <= |AllowedKeywords|
    ensures var key := AllowedKeywords[i];
      var r := KeywordsApplied(filters, args, dir, n);
      key in args && KeywordRule(key, args[key]).SetTo? && r.Ok? ==>
        key in r.value && r.value[key] == KeywordRule(key, args[key]).v
  {
    KeywordsDistinct();
    if n - 1 != i {
      KeywordsAppliedAt(filters, args, dir, n - 1, i);
    }
  }

  /** A "null" argument filters for "none", and status "all" for any status,
      whenever the loop does not raise on another key. */
  lemma NullAndAllKeywords(filters: Filters, args: map<string, FVal>, dir: Directory)
    ensures var r := KeywordsApplied(filters, args, dir, |AllowedKeywords|);
      r.Ok? ==> forall key :: key in AllowedKeywords && key in args && args[key] == FStr("null") ==> key in r.value && r.value[key] == FStr("!*")
    ensures var r := KeywordsApplied(filters, args, dir, |AllowedKeywords|);
      r.Ok? && "status_id" in args && args["status_id"] == FStr("all") ==> "status_id" in r.value && r.value["status_id"] == FStr("*")
  {
    forall i | 0 <= i < |AllowedKeywords| {
      KeywordsAppliedAt(filters, args, dir, |AllowedKeywords|, i);
    }
    assert AllowedKeywords[1] == "status_id";
  }

  // ---------------------------------------------------------------------------
  // handle_sync_son_issue

  /** `handle_sync_son_issue`: adds `id` to a parent's comma-separated child
      list unless it is there already. */
  function HandleSyncSonIssue(value: Option<string>, id: string): (r: string)
    ensures value.None? ==> r == id
    ensures value.Some? && id in Split(value.value, ",") ==> r == value.value
  {
    match value
    case None => id
    case Some(v) => if id !in Split(v, ",") then v + "," + id else v
  }

  /** The child list gains `id` at the end exactly when it was missing. */
  lemma {:induction false} SyncSonIds(value: string, id: string)
    requires ',' !in id
    ensures id !in Split(value, ",") ==> Split(HandleSyncSonIssue(Some(value), id), ",") == Split(value, ",") + [id]
  {
    if id !in Split(value, ",") {
      var parts := Split(value, ",");
      SplitParts(value, ',');
      JoinSplit(value, ",");
      assert Join(parts + [id], ",") == value + "," + id by { JoinSnoc(parts, id, ","); }
      SplitJoin(parts + [id], ',');
    }
  }

  lemma {:induction false} JoinSnoc(xs: seq<string>, x: string, sep: string)
    requires |xs| > 0
    ensures Join(xs + [x], sep) == Join(xs, sep) + sep + x
  {
    if |xs| > 1 {
      assert (xs + [x])[1..] == xs[1..] + [x];
      JoinSnoc(xs[1..], x, sep);
    }
  }

  /** Syncing the same child twice is the same as syncing it once. */
  lemma SyncSonIdempotent(value: Option<string>, id: string)
    requires ',' !in id
    ensures HandleSyncSonIssue(Some(HandleSyncSonIssue(value, id)), id) == HandleSyncSonIssue(value, id)
  {
    match value
    case None =>
      IndexOfAbsent(id, ',');
    case Some(v) =>
      if id !in Split(v, ",") {
        SyncSonIds(v, id);
      }
  }

  /** The bulk sync agrees with `add_issue_relation` on the same parent entry. */
  lemma SyncMatchesAdd(m: map<string, string>, parent: string, id: string)
    requires ',' !in id
    ensures HandleSyncSonIssue(if parent in m then Some(m[parent]) else None, id) == AddedRelation(m, parent, id)[parent]
  {
    if parent in m {
      JoinSplit(m[parent], ",");
      SplitParts(m[parent], ',');
      JoinSnoc(Split(m[parent], ","), id, ",");
    }
  }
}
