/** The project listing order, the argument defaults of project creation
    and the two argument checks of `apis/resources/project.py`. */
module Project {
  import opened Wrappers
  import opened Strs
  import opened PyMath

  /** `sort_func` of `get_project_rows_by_user`: starred projects before the
      others, each group by descending id. */
  function SortFunc(a: int, b: int, starred: set<int>): int {
    if a in starred && b in starred then b - a
    else if a !in starred && b !in starred then b - a
    else if a in starred && b !in starred then -1
    else if a !in starred && b in starred then 1
    else 0
  }

  /** `a` sorts strictly before `b`. */
  predicate Before(a: int, b: int, starred: set<int>) {
    SortFunc(a, b, starred) < 0
  }

  predicate StrictlySorted(s: seq<int>, starred: set<int>) {
    forall i, j :: 0 <= i < j < |s| ==> Before(s[i], s[j], starred)
  }

  predicate Descending(s: seq<int>) {
    forall i, j :: 0 <= i < j < |s| ==> s[i] > s[j]
  }

  /** The ids of `ids` that are (or are not) starred, in their order. */
  function Keep(ids: seq<int>, starred: set<int>, want: bool): (r: seq<int>)
    ensures multiset(r) <= multiset(ids)
    ensures forall k :: 0 <= k < |r| ==> (r[k] in starred) == want
  {
    if ids == [] then []
    else
      var init := Keep(ids[..|ids| - 1], starred, want);
      assert ids == ids[..|ids| - 1] + [ids[|ids| - 1]];
      init + (if (ids[|ids| - 1] in starred) == want then [ids[|ids| - 1]] else [])
  }

  /** The order the listing returns: the starred ids, then the others. */
  function ProjectOrder(ids: seq<int>, starred: set<int>): (r: seq<int>)
    ensures |r| == |ids|
  {
    KeepSplit(ids, starred);
    var r := Keep(ids, starred, true) + Keep(ids, starred, false);
    assert |multiset(r)| == |multiset(ids)|;
    r
  }

  lemma {:induction false} KeepSplit(ids: seq<int>, starred: set<int>)
    ensures multiset(Keep(ids, starred, true)) + multiset(Keep(ids, starred, false)) == multiset(ids)
  {
    if ids != [] {
      var init := ids[..|ids| - 1];
      KeepSplit(init, starred);
      assert ids == init + [ids[|ids| - 1]];
    }
  }

  /** Keeping part of a descending list keeps it descending. */
  lemma {:induction false} KeepDescending(ids: seq<int>, starred: set<int>, want: bool)
    requires Descending(ids)
    ensures Descending(Keep(ids, starred, want))
    ensures forall k :: 0 <= k < |Keep(ids, starred, want)| ==> Keep(ids, starred, want)[k] in ids
  {
    if ids != [] {
      var init := ids[..|ids| - 1];
      var x := ids[|ids| - 1];
      assert Descending(init);
      KeepDescending(init, starred, want);
      var r := Keep(init, starred, want);
      forall k | 0 <= k < |r| ensures r[k] > x {
        assert r[k] in init;
      }
    }
  }

  /** On the id-descending rows the query returns, the listing order is a
      permutation sorted by `sort_func`. */
  lemma ProjectOrderSorted(ids: seq<int>, starred: set<int>)
    requires Descending(ids)
    ensures multiset(ProjectOrder(ids, starred)) == multiset(ids)
    ensures StrictlySorted(ProjectOrder(ids, starred), starred)
  {
    KeepSplit(ids, starred);
    KeepDescending(ids, starred, true);
    KeepDescending(ids, starred, false);
  }

  /** Two lists with the same elements, both sorted strictly by `sort_func`,
      are equal: so the order does not depend on the sorting algorithm. */
  lemma {:induction false} SortedUnique(a: seq<int>, b: seq<int>, starred: set<int>)
    requires multiset(a) == multiset(b)
    requires StrictlySorted(a, starred) && StrictlySorted(b, starred)
    ensures a == b
    decreases |a|
  {
    if a != [] {
      SortedHeads(a, b, starred);
      assert a == [a[0]] + a[1..] && b == [b[0]] + b[1..];
      assert multiset(a) == multiset{a[0]} + multiset(a[1..]);
      assert multiset(b) == multiset{b[0]} + multiset(b[1..]);
      assert multiset(a[1..]) == multiset(a) - multiset{a[0]};
      assert multiset(b[1..]) == multiset(b) - multiset{b[0]};
      SortedTail(a, starred);
      SortedTail(b, starred);
      SortedUnique(a[1..], b[1..], starred);
    } else {
      assert |b| == |multiset(b)| == 0;
    }
  }

  lemma Antisymmetric(x: int, y: int, starred: set<int>)
    requires Before(x, y, starred)
    ensures !Before(y, x, starred)
  {
  }

  lemma SortedHeads(a: seq<int>, b: seq<int>, starred: set<int>)
    requires multiset(a) == multiset(b) && |a| > 0
    requires StrictlySorted(a, starred) && StrictlySorted(b, starred)
    ensures |b| > 0 && a[0] == b[0]
  {
    assert a[0] in multiset(b);
    var j :| 0 <= j < |b| && b[j] == a[0];
    assert b[0] in multiset(a);
    var i :| 0 <= i < |a| && a[i] == b[0];
    if i != 0 && j != 0 {
      assert Before(a[0], a[i], starred);
      Antisymmetric(a[0], b[0], starred);
    }
  }

  lemma SortedTail(a: seq<int>, starred: set<int>)
    requires |a| > 0 && StrictlySorted(a, starred)
    ensures StrictlySorted(a[1..], starred)
  {
    forall i, j | 0 <= i < j < |a[1..]| ensures Before(a[1..][i], a[1..][j], starred) {
      assert a[1..][i] == a[i + 1] && a[1..][j] == a[j + 1];
    }
  }

  /** `get_project_rows_by_user` after the query: the sorted rows, sliced
      when both offset and limit are given, and the total count. */
  function ProjectRows(ids: seq<int>, starred: set<int>, offset: Option<int>, limit: Option<int>): (r: (seq<int>, int))
    ensures r.1 == |ids|
    ensures offset.None? || limit.None? ==> r.0 == ProjectOrder(ids, starred)
    ensures offset.Some? && limit.Some? ==>
              r.0 == Slice(ProjectOrder(ids, starred), offset.value, offset.value + limit.value)
  {
    var all := ProjectOrder(ids, starred);
    if offset.None? || limit.None? then (all, |ids|)
    else (Slice(all, offset.value, offset.value + limit.value), |ids|)
  }

  /** A page within the listing is exactly that stretch of the order. */
  lemma RowsPage(ids: seq<int>, starred: set<int>, offset: nat, limit: nat)
    requires offset + limit <= |ids|
    ensures ProjectRows(ids, starred, Some(offset), Some(limit)).0 ==
              ProjectOrder(ids, starred)[offset..offset + limit]
    ensures |ProjectRows(ids, starred, Some(offset), Some(limit)).0| == limit
  {
  }

  /** The arguments of `create_project` that get defaults. */
  datatype CreateArgs = CreateArgs(name: string, display: Option<string>, description: Option<string>, ownerId: Option<int>)

  /** The arguments after defaulting, with the owner the project will get. */
  datatype Defaulted = Defaulted(name: string, display: string, description: string, ownerId: int)

  /** `create_project`'s defaults: an absent description becomes empty, an
      absent display the name, and a falsy owner (absent or 0) the caller. */
  function ProjectDefaults(args: CreateArgs, userId: int): (r: Defaulted)
    ensures r.name == args.name
    ensures args.description.None? ==> r.description == ""
    ensures args.description.Some? ==> r.description == args.description.value
    ensures args.display.None? ==> r.display == args.name
    ensures args.display.Some? ==> r.display == args.display.value
    ensures args.ownerId.None? || args.ownerId == Some(0) ==> r.ownerId == userId
    ensures args.ownerId.Some? && args.ownerId.value != 0 ==> r.ownerId == args.ownerId.value
  {
    Defaulted(args.name,
              if args.display.None? then args.name else args.display.value,
              if args.description.None? then "" else args.description.value,
              if args.ownerId.None? || args.ownerId.value == 0 then userId else args.ownerId.value)
  }

  /** Defaults fill in exactly the missing values: with nothing missing the
      arguments pass through, and with everything missing the project gets
      its name as display, no description and the caller as owner. */
  lemma DefaultsFill(name: string, display: string, description: string, ownerId: int, userId: int)
    ensures ownerId != 0 ==>
      ProjectDefaults(CreateArgs(name, Some(display), Some(description), Some(ownerId)), userId) ==
      Defaulted(name, display, description, ownerId)
    ensures ProjectDefaults(CreateArgs(name, None, None, None), userId) == Defaulted(name, name, "", userId)
    ensures ProjectDefaults(CreateArgs(name, None, None, Some(0)), userId) == Defaulted(name, name, "", userId)
  {
  }

  const InvalidContent := DevOps(400, "Error while creating project.")

  /** A Python truthy string: present and non-empty. */
  predicate Truthy(s: Option<string>) {
    s.Some? && s.value != ""
  }

  predicate HasMarkup(s: string) {
    exists k :: 0 <= k < |s| && (s[k] == '&' || s[k] == '<')
  }

  /** What `re.fullmatch`-like anchoring of `^[a-z][a-z0-9-]{0,28}[a-z0-9]$`
      accepts without the trailing newline `$` also allows. */
  predicate NameCore(s: string) {
    2 <= |s| <= 30 && IsLower(s[0]) && (IsLower(s[|s| - 1]) || IsDigit(s[|s| - 1])) &&
    forall k :: 0 < k < |s| - 1 ==> IsLower(s[k]) || IsDigit(s[k]) || s[k] == '-'
  }

  /** `re.findall("^[a-z][a-z0-9-]{0,28}[a-z0-9]$", s)` is non-empty: Python's
      `$` also matches just before a final newline. */
  predicate NameMatches(s: string) {
    NameCore(s) || (|s| > 0 && s[|s| - 1] == '\n' && NameCore(s[..|s| - 1]))
  }

  /** One key of the content check. */
  function ContentCheck(value: Option<string>): (r: Outcome)
    ensures r.Fail? <==> Truthy(value) && HasMarkup(value.value)
  {
    if Truthy(value) && HasMarkup(value.value) then Fail(InvalidContent) else Pass
  }

  /** `check_project_args_patterns` as written: the name test compares the
      match list with None, which `re.findall` never returns, so only display
      and description are checked (in that order). */
  function CheckProjectArgsPatterns(name: Option<string>, display: Option<string>, description: Option<string>): (r: Outcome)
    ensures r.Fail? <==> (Truthy(display) && HasMarkup(display.value)) ||
                         (Truthy(description) && HasMarkup(description.value))
    ensures r.Fail? ==> r == Fail(InvalidContent)
  {
    if ContentCheck(display).Fail? then ContentCheck(display)
    else ContentCheck(description)
  }

  /** The name never matters to the check as written: "Bad Name" passes. */
  lemma NameNeverChecked(name: Option<string>, display: Option<string>, description: Option<string>)
    ensures CheckProjectArgsPatterns(name, display, description) == CheckProjectArgsPatterns(None, display, description)
    ensures !NameMatches("Bad Name") && CheckProjectArgsPatterns(Some("Bad Name"), None, None) == Pass
  {
    assert !IsLower('B');
  }

  const InvalidName := DevOps(400, "Error while creating project.")

  /** The check as evidently intended: a truthy name must match the pattern. */
  function CheckProjectArgsPatternsFixed(name: Option<string>, display: Option<string>, description: Option<string>): (r: Outcome)
  {
    if Truthy(name) && !NameMatches(name.value) then Fail(InvalidName)
    else CheckProjectArgsPatterns(name, display, description)
  }

  /** The intended check accepts exactly names that match, and tests the
      other keys as before. */
  lemma FixedCheckMeaning(name: Option<string>, display: Option<string>, description: Option<string>)
    ensures CheckProjectArgsPatternsFixed(name, display, description).Pass? <==>
              (Truthy(name) ==> NameMatches(name.value)) &&
              CheckProjectArgsPatterns(name, display, description).Pass?
    ensures CheckProjectArgsPatternsFixed(Some("Bad Name"), None, None) == Fail(InvalidName)
  {
    assert !IsLower('B');
  }

  const InvalidOwner := DevOps(400, "Error while updating project info.")
  const NotAllowedOwner := NotAllowed("Error while updating project info.")

  /** `check_project_owner_id`; `pmRows` holds the (project, user) pairs
      whose project role is 3, the project manager. */
  function CheckProjectOwnerId(newOwnerId: int, userId: int, originOwnerId: int, projectId: int,
                               isAdmin: bool, pmRows: set<(int, int)>): (r: Outcome)
    ensures r.Pass? <==>
      isAdmin ||
      (originOwnerId == userId && (newOwnerId == userId || (projectId, newOwnerId) in pmRows)) ||
      (originOwnerId != userId && newOwnerId == originOwnerId)
    ensures r.Fail? && originOwnerId == userId ==> r == Fail(InvalidOwner)
    ensures r.Fail? && originOwnerId != userId ==> r == Fail(NotAllowedOwner)
  {
    if isAdmin then Pass
    else if originOwnerId == userId && newOwnerId == userId then Pass
    else if originOwnerId == userId && newOwnerId != userId then
      (if (projectId, newOwnerId) !in pmRows then Fail(InvalidOwner) else Pass)
    else if originOwnerId != userId && newOwnerId == originOwnerId then Pass
    else Fail(NotAllowedOwner)
  }

  /** Only an administrator or the owner can move ownership, and the owner
      only to a project manager of the project. */
  lemma OwnerChangeGuarded(newOwnerId: int, userId: int, originOwnerId: int, projectId: int,
                           isAdmin: bool, pmRows: set<(int, int)>)
    requires CheckProjectOwnerId(newOwnerId, userId, originOwnerId, projectId, isAdmin, pmRows).Pass?
    requires newOwnerId != originOwnerId && !isAdmin
    ensures userId == originOwnerId && (projectId, newOwnerId) in pmRows
  {
  }
}
