/** The Redmine client logic of `apis/resources/redmine.py` that does not
    talk to the network: the paging loop over a listing endpoint, the
    per-version closed/unclosed tally kept in `self.versions`, the
    accumulated list of closed status ids, and the release check over the
    tallied versions. The HTTP request of one page is a function parameter
    from the requested offset to the page returned. */
module Redmine {
  import opened Wrappers
  import opened Strs

  const PageSize := 100

  /** One reply of a listing endpoint: its `total_count` and its items. */
  datatype Page<T> = Page(totalCount: int, items: seq<T>)

  /** The page requested `k`-th: the first request sends no offset, the
      later ones offset 100, 200, and so on. */
  function PageAt<T>(fetch: nat -> Page<T>, k: nat): Page<T> {
    fetch(PageSize * k)
  }

  /** The items of the first `n` pages, one after the other. */
  function Collected<T>(fetch: nat -> Page<T>, n: nat): seq<T> {
    if n == 0 then [] else Collected(fetch, n - 1) + PageAt(fetch, n - 1).items
  }

  /** The first `n` pages were all full. */
  predicate FullBefore<T>(fetch: nat -> Page<T>, n: nat) {
    forall k :: 0 <= k < n ==> |PageAt(fetch, k).items| == PageSize
  }

  /** `Redmine.paging`: requests pages while each comes back with exactly 100
      items and returns their concatenation with the last `total_count`. The
      loop only ends if some page is short, which the caller must know. */
  method Paging<T>(fetch: nat -> Page<T>) returns (ret: seq<T>, totalCount: int, requests: nat)
    requires exists n: nat :: |PageAt(fetch, n).items| != PageSize
    ensures requests >= 1 && FullBefore(fetch, requests - 1)
    ensures |PageAt(fetch, requests - 1).items| != PageSize
    ensures ret == Collected(fetch, requests)
    ensures totalCount == PageAt(fetch, requests - 1).totalCount
  {
    ghost var bound: nat :| |PageAt(fetch, bound).items| != PageSize;
    var offset: nat := 0;
    ret := [];
    requests := 0;
    while true
      invariant offset == PageSize * requests && requests <= bound
      invariant FullBefore(fetch, requests)
      invariant ret == Collected(fetch, requests)
      decreases bound - requests
    {
      var page := fetch(offset);
      ret := ret + page.items;
      requests := requests + 1;
      if |page.items| == PageSize {
        offset := offset + PageSize;
      } else {
        totalCount := page.totalCount;
        break;
      }
    }
  }

  function Min(a: int, b: int): int {
    if a <= b then a else b
  }

  /** A server that answers the request at offset `o` with the items of
      `all` from `o` on, 100 at a time. */
  ghost predicate Slices<T>(fetch: nat -> Page<T>, all: seq<T>) {
    forall o: nat :: fetch(o).items == all[Min(o, |all|)..Min(o + PageSize, |all|)]
  }

  lemma {:induction false} CollectedPrefix<T>(fetch: nat -> Page<T>, all: seq<T>, n: nat)
    requires Slices(fetch, all)
    ensures Collected(fetch, n) == all[..Min(PageSize * n, |all|)]
  {
    if n > 0 {
      CollectedPrefix(fetch, all, n - 1);
      var a := Min(PageSize * (n - 1), |all|);
      var b := Min(PageSize * (n - 1) + PageSize, |all|);
      assert PageAt(fetch, n - 1).items == all[a..b];
      assert all[..a] + all[a..b] == all[..b];
    }
  }

  lemma {:induction false} FullPagesFit<T>(fetch: nat -> Page<T>, all: seq<T>, n: nat)
    requires Slices(fetch, all) && FullBefore(fetch, n)
    ensures PageSize * n <= |all|
  {
    if n > 0 {
      FullPagesFit(fetch, all, n - 1);
      var o := PageSize * (n - 1);
      assert |PageAt(fetch, n - 1).items| == PageSize;
      assert PageAt(fetch, n - 1) == fetch(o);
      assert fetch(o).items == all[Min(o, |all|)..Min(o + PageSize, |all|)];
    }
  }

  /** Against a server that slices one collection, paging returns the whole
      collection, once, after |all| / 100 + 1 requests. */
  lemma PagingCollectsAll<T>(fetch: nat -> Page<T>, all: seq<T>, requests: nat)
    requires Slices(fetch, all)
    requires requests >= 1 && FullBefore(fetch, requests - 1)
    requires |PageAt(fetch, requests - 1).items| != PageSize
    ensures Collected(fetch, requests) == all
    ensures requests == |all| / PageSize + 1
  {
    CollectedPrefix(fetch, all, requests);
    FullPagesFit(fetch, all, requests - 1);
    assert |PageAt(fetch, requests - 1).items| != PageSize;
    assert PageSize * requests > |all|;
    assert all[..|all|] == all;
  }

  /** The fields of an issue the tally reads. */
  datatype Issue = Issue(versionId: string, versionName: string, closedOn: string, statusId: int)

  /** One entry of `self.versions`. */
  datatype VersionStat = VersionStat(id: string, name: string, closed: nat, unclosed: nat, issues: seq<Issue>)

  function Seed(version: string): VersionStat {
    VersionStat(version, "", 0, 0, [])
  }

  /** An issue counts as closed when it has a closing date and a closed status. */
  predicate IsClosed(issue: Issue, closedStatuses: seq<int>) {
    issue.closedOn != "" && issue.statusId in closedStatuses
  }

  function CountClosed(issues: seq<Issue>, closedStatuses: seq<int>): nat {
    if issues == [] then 0
    else CountClosed(issues[..|issues| - 1], closedStatuses) +
         (if IsClosed(issues[|issues| - 1], closedStatuses) then 1 else 0)
  }

  /** The tally of one issue into its version's entry. */
  function Step(vs: map<string, VersionStat>, issue: Issue, closedStatuses: seq<int>): map<string, VersionStat>
    requires issue.versionId in vs
  {
    var v := vs[issue.versionId];
    var named := if v.name == "" then v.(name := issue.versionName) else v;
    var counted := if IsClosed(issue, closedStatuses) then named.(closed := named.closed + 1)
                   else named.(unclosed := named.unclosed + 1);
    vs[issue.versionId := counted.(issues := counted.issues + [issue])]
  }

  /** The index of the first issue of a version that is not tracked. */
  function StopAt(keys: set<string>, issues: seq<Issue>): (r: nat)
    ensures r <= |issues|
    ensures forall k :: 0 <= k < r ==> issues[k].versionId in keys
    ensures r < |issues| ==> issues[r].versionId !in keys
  {
    if issues == [] || issues[0].versionId !in keys then 0
    else 1 + StopAt(keys, issues[1..])
  }

  predicate AllTracked(keys: set<string>, issues: seq<Issue>) {
    forall k :: 0 <= k < |issues| ==> issues[k].versionId in keys
  }

  lemma StopAtIs(keys: set<string>, issues: seq<Issue>, i: nat)
    requires i <= |issues| && AllTracked(keys, issues[..i])
    requires i < |issues| ==> issues[i].versionId !in keys
    ensures StopAt(keys, issues) == i
  {
  }

  /** The tally of every issue, in order, when all are tracked. */
  function Applied(vs: map<string, VersionStat>, issues: seq<Issue>, closedStatuses: seq<int>): (r: map<string, VersionStat>)
    requires AllTracked(vs.Keys, issues)
    ensures r.Keys == vs.Keys
  {
    if issues == [] then vs
    else Step(Applied(vs, issues[..|issues| - 1], closedStatuses), issues[|issues| - 1], closedStatuses)
  }

  lemma AppliedStep(vs: map<string, VersionStat>, issues: seq<Issue>, i: nat, closedStatuses: seq<int>)
    requires i < |issues| && AllTracked(vs.Keys, issues[..i + 1])
    ensures AllTracked(vs.Keys, issues[..i])
    ensures Applied(vs, issues[..i + 1], closedStatuses) ==
              Step(Applied(vs, issues[..i], closedStatuses), issues[i], closedStatuses)
  {
    assert issues[..i + 1][..i] == issues[..i];
  }

  /** `analysis_issue_type_by_versions`: tallies the issues up to the first
      one of an untracked version. */
  function Analysed(vs: map<string, VersionStat>, issues: seq<Issue>, closedStatuses: seq<int>): (r: map<string, VersionStat>)
    ensures r.Keys == vs.Keys
  {
    Applied(vs, issues[..StopAt(vs.Keys, issues)], closedStatuses)
  }

  /** Each entry counts its own issues: closed is the number of closed ones,
      closed plus unclosed is the number of issues, all of that version. */
  predicate Counted(vs: map<string, VersionStat>, closedStatuses: seq<int>) {
    forall id :: id in vs ==>
      vs[id].closed == CountClosed(vs[id].issues, closedStatuses) &&
      vs[id].closed + vs[id].unclosed == |vs[id].issues| &&
      forall k :: 0 <= k < |vs[id].issues| ==> vs[id].issues[k].versionId == id
  }

  lemma StepCounted(vs: map<string, VersionStat>, issue: Issue, closedStatuses: seq<int>)
    requires issue.versionId in vs && Counted(vs, closedStatuses)
    ensures Counted(Step(vs, issue, closedStatuses), closedStatuses)
  {
    var id := issue.versionId;
    var after := Step(vs, issue, closedStatuses)[id].issues;
    assert after[..|after| - 1] == vs[id].issues;
  }

  lemma {:induction false} AppliedCounted(vs: map<string, VersionStat>, issues: seq<Issue>, closedStatuses: seq<int>)
    requires AllTracked(vs.Keys, issues) && Counted(vs, closedStatuses)
    ensures Counted(Applied(vs, issues, closedStatuses), closedStatuses)
  {
    if issues != [] {
      AppliedCounted(vs, issues[..|issues| - 1], closedStatuses);
      StepCounted(Applied(vs, issues[..|issues| - 1], closedStatuses), issues[|issues| - 1], closedStatuses);
    }
  }

  /** The tally keeps every entry's counts equal to its issues. */
  lemma AnalysedCounted(vs: map<string, VersionStat>, issues: seq<Issue>, closedStatuses: seq<int>)
    requires Counted(vs, closedStatuses)
    ensures Counted(Analysed(vs, issues, closedStatuses), closedStatuses)
  {
    AppliedCounted(vs, issues[..StopAt(vs.Keys, issues)], closedStatuses);
  }

  /** Issues of one version only add to that version's entry: its issues
      grow by exactly them and closed by the closed ones among them. */
  lemma {:induction false} AppliedOwn(vs: map<string, VersionStat>, issues: seq<Issue>, closedStatuses: seq<int>, id: string)
    requires id in vs && forall k :: 0 <= k < |issues| ==> issues[k].versionId == id
    ensures var r := Applied(vs, issues, closedStatuses);
      r[id].issues == vs[id].issues + issues &&
      r[id].closed == vs[id].closed + CountClosed(issues, closedStatuses) &&
      r[id].unclosed == vs[id].unclosed + |issues| - CountClosed(issues, closedStatuses) &&
      forall other :: other in vs && other != id ==> r[other] == vs[other]
  {
    if issues != [] {
      var init := issues[..|issues| - 1];
      AppliedOwn(vs, init, closedStatuses, id);
      assert vs[id].issues + init + [issues[|issues| - 1]] == vs[id].issues + issues;
    }
  }

  /** The dictionary's key order: each version where it was first inserted. */
  function Inserted(order: seq<string>, version: string): seq<string> {
    if version in order then order else order + [version]
  }

  /** `rm_list_issues_by_versions_and_closed` on `self.versions` and its key
      order: each version is reset to an empty entry and its issues tallied. */
  function Listed(versions: seq<string>, issuesOf: string -> seq<Issue>, closedStatuses: seq<int>):
    (r: (map<string, VersionStat>, seq<string>))
    ensures forall x :: x in r.0 <==> x in versions
    ensures forall x :: x in r.0 <==> x in r.1
    ensures forall i, j :: 0 <= i < j < |r.1| ==> r.1[i] != r.1[j]
  {
    if versions == [] then (map[], [])
    else
      var init := versions[..|versions| - 1];
      var v := versions[|versions| - 1];
      var prev := Listed(init, issuesOf, closedStatuses);
      assert versions == init + [v];
      (Analysed(prev.0[v := Seed(v)], issuesOf(v), closedStatuses), Inserted(prev.1, v))
  }

  lemma ListedStep(versions: seq<string>, i: nat, issuesOf: string -> seq<Issue>, closedStatuses: seq<int>)
    requires i < |versions|
    ensures var prev := Listed(versions[..i], issuesOf, closedStatuses);
      Listed(versions[..i + 1], issuesOf, closedStatuses) ==
        (Analysed(prev.0[versions[i] := Seed(versions[i])], issuesOf(versions[i]), closedStatuses),
         Inserted(prev.1, versions[i]))
  {
    assert versions[..i + 1][..i] == versions[..i];
  }

  /** Every entry the listing leaves behind counts its issues correctly. */
  lemma {:induction false} ListedCounted(versions: seq<string>, issuesOf: string -> seq<Issue>, closedStatuses: seq<int>)
    ensures Counted(Listed(versions, issuesOf, closedStatuses).0, closedStatuses)
  {
    if versions != [] {
      var init := versions[..|versions| - 1];
      var v := versions[|versions| - 1];
      ListedCounted(init, issuesOf, closedStatuses);
      var seeded := Listed(init, issuesOf, closedStatuses).0[v := Seed(v)];
      AnalysedCounted(seeded, issuesOf(v), closedStatuses);
    }
  }

  /** Every issue in the list belongs to version `v`. */
  predicate OwnVersion(issues: seq<Issue>, v: string) {
    forall j :: 0 <= j < |issues| ==> issues[j].versionId == v
  }

  /** The entry of `v` holds exactly `issues` and counts their closed ones. */
  predicate HoldsExactly(vs: map<string, VersionStat>, v: string, issues: seq<Issue>, closedStatuses: seq<int>) {
    v in vs && vs[v].issues == issues && vs[v].closed == CountClosed(issues, closedStatuses)
  }

  /** When Redmine returns only issues of the requested version, each
      version's entry holds exactly its issues and counts them. */
  lemma {:induction false} ListedExact(versions: seq<string>, issuesOf: string -> seq<Issue>, closedStatuses: seq<int>)
    requires forall k :: 0 <= k < |versions| ==> OwnVersion(issuesOf(versions[k]), versions[k])
    ensures forall k :: 0 <= k < |versions| ==>
      HoldsExactly(Listed(versions, issuesOf, closedStatuses).0, versions[k], issuesOf(versions[k]), closedStatuses)
  {
    if versions != [] {
      var init := versions[..|versions| - 1];
      var v := versions[|versions| - 1];
      assert forall k :: 0 <= k < |init| ==> init[k] == versions[k];
      ListedExact(init, issuesOf, closedStatuses);
      var prev := Listed(init, issuesOf, closedStatuses).0;
      assert versions == init + [v];
      ExactStep(prev, init, v, issuesOf, closedStatuses);
    }
  }

  lemma ExactStep(prev: map<string, VersionStat>, init: seq<string>, v: string,
                  issuesOf: string -> seq<Issue>, closedStatuses: seq<int>)
    requires OwnVersion(issuesOf(v), v)
    requires forall k :: 0 <= k < |init| ==> HoldsExactly(prev, init[k], issuesOf(init[k]), closedStatuses)
    ensures var vs := Analysed(prev[v := Seed(v)], issuesOf(v), closedStatuses);
      forall k :: 0 <= k < |init + [v]| ==>
        HoldsExactly(vs, (init + [v])[k], issuesOf((init + [v])[k]), closedStatuses)
  {
    var vs := Analysed(prev[v := Seed(v)], issuesOf(v), closedStatuses);
    SeededAnalysed(prev, v, issuesOf(v), closedStatuses);
    var versions := init + [v];
    forall k | 0 <= k < |versions|
      ensures HoldsExactly(vs, versions[k], issuesOf(versions[k]), closedStatuses)
    {
      if k < |init| {
        assert versions[k] == init[k];
      }
    }
  }

  /** Resetting a version and tallying issues of that version only leaves
      exactly those issues in its entry and every other entry alone. */
  lemma SeededAnalysed(prev: map<string, VersionStat>, v: string, issues: seq<Issue>, closedStatuses: seq<int>)
    requires OwnVersion(issues, v)
    ensures var r := Analysed(prev[v := Seed(v)], issues, closedStatuses);
      HoldsExactly(r, v, issues, closedStatuses) &&
      forall x :: x in prev && x != v ==> r[x] == prev[x]
  {
    var seeded := prev[v := Seed(v)];
    assert issues[..|issues|] == issues;
    assert AllTracked(seeded.Keys, issues) by {
      forall k | 0 <= k < |issues| ensures issues[k].versionId in seeded.Keys {
        assert issues[k].versionId == v;
      }
    }
    StopAtIs(seeded.Keys, issues, |issues|);
    var r := Applied(seeded, issues, closedStatuses);
    AppliedOwn(seeded, issues, closedStatuses, v);
    assert Analysed(seeded, issues, closedStatuses) == r;
    assert seeded[v].issues == [] && seeded[v].closed == 0;
    assert r[v].issues == issues by { assert [] + issues == issues; }
  }

  /** A status as Redmine lists it. */
  datatype Status = Status(id: int, isClosed: bool)

  /** The ids of the closed statuses, in order. */
  function ClosedIds(statuses: seq<Status>): (r: seq<int>)
    ensures forall x :: x in r <==> exists k :: 0 <= k < |statuses| && statuses[k] == Status(x, true)
  {
    if statuses == [] then []
    else
      var init := statuses[..|statuses| - 1];
      assert forall k :: 0 <= k < |init| ==> init[k] == statuses[k];
      ClosedIds(init) + (if statuses[|statuses| - 1].isClosed then [statuses[|statuses| - 1].id] else [])
  }

  /** Two listings in turn accumulate the ids of both. */
  lemma {:induction false} ClosedIdsConcat(a: seq<Status>, b: seq<Status>)
    ensures ClosedIds(a + b) == ClosedIds(a) + ClosedIds(b)
    decreases |b|
  {
    if b != [] {
      var init := b[..|b| - 1];
      assert (a + b)[..|a + b| - 1] == a + init;
      var x := b[|b| - 1];
      assert (a + b)[|a + b| - 1] == x;
      assert ClosedIds(a + b) == ClosedIds(a + init) + (if x.isClosed then [x.id] else []);
      assert ClosedIds(b) == ClosedIds(init) + (if x.isClosed then [x.id] else []);
      ClosedIdsConcat(a, init);
    } else {
      assert a + b == a;
    }
  }

  /** `list(d.values())` for a dict with key order `order`. */
  function Values(vs: map<string, VersionStat>, order: seq<string>): (r: seq<VersionStat>)
    requires forall k :: 0 <= k < |order| ==> order[k] in vs
    ensures |r| == |order| && forall k :: 0 <= k < |order| ==> r[k] == vs[order[k]]
  {
    seq(|order|, k requires 0 <= k < |order| => vs[order[k]])
  }

  /** The Redmine client's state. `order` is the insertion order of the keys
      of `versions`, which a Python dict keeps. */
  class RedmineClient {
    var versions: map<string, VersionStat>
    var order: seq<string>
    var closedStatus: seq<int>

    constructor ()
      ensures versions == map[] && order == [] && closedStatus == []
    {
      versions := map[];
      order := [];
      closedStatus := [];
    }

    /** `analysis_issue_type_by_versions`. */
    method AnalysisIssueTypeByVersions(issues: seq<Issue>, closedStatuses: seq<int>)
      modifies this
      ensures versions == Analysed(old(versions), issues, closedStatuses)
      ensures order == old(order) && closedStatus == old(closedStatus)
    {
      ghost var start := versions;
      var vs := versions;
      ghost var broke := false;
      for i := 0 to |issues|
        modifies {}
        invariant !broke && AllTracked(start.Keys, issues[..i])
        invariant vs == Applied(start, issues[..i], closedStatuses)
      {
        var issue := issues[i];
        if issue.versionId !in vs {
          StopAtIs(start.Keys, issues, i);
          broke := true;
          break;
        }
        var v := vs[issue.versionId];
        if v.name == "" {
          v := v.(name := issue.versionName);
        }
        if issue.closedOn != "" && issue.statusId in closedStatuses {
          v := v.(closed := v.closed + 1);
        } else {
          v := v.(unclosed := v.unclosed + 1);
        }
        v := v.(issues := v.issues + [issue]);
        assert AllTracked(start.Keys, issues[..i + 1]);
        AppliedStep(start, issues, i, closedStatuses);
        assert vs[issue.versionId := v] == Step(vs, issue, closedStatuses);
        vs := vs[issue.versionId := v];
      }
      if !broke {
        StopAtIs(start.Keys, issues, |issues|);
        assert issues[..|issues|] == issues;
      }
      versions := vs;
    }

    /** `rm_list_issues_by_versions_and_closed`; `issuesOf` stands for the
        paged request of one version's issues. */
    method RmListIssuesByVersionsAndClosed(versionIds: seq<string>, issuesOf: string -> seq<Issue>, closedStatuses: seq<int>)
      returns (r: seq<VersionStat>)
      modifies this
      ensures (versions, order) == Listed(versionIds, issuesOf, closedStatuses)
      ensures |r| == |order| && forall k :: 0 <= k < |order| ==> r[k] == versions[order[k]]
      ensures closedStatus == old(closedStatus)
    {
      versions := map[];
      order := [];
      for i := 0 to |versionIds|
        invariant (versions, order) == Listed(versionIds[..i], issuesOf, closedStatuses)
        invariant closedStatus == old(closedStatus)
      {
        var version := versionIds[i];
        ListedStep(versionIds, i, issuesOf, closedStatuses);
        if version !in versions {
          order := order + [version];
        }
        versions := versions[version := Seed(version)];
        AnalysisIssueTypeByVersions(issuesOf(version), closedStatuses);
      }
      assert versionIds[..|versionIds|] == versionIds;
      r := Values(versions, order);
    }

    /** `get_closed_status`: appends the closed status ids and returns the
        whole accumulated list. */
    method GetClosedStatus(statuses: seq<Status>) returns (r: seq<int>)
      modifies this
      ensures closedStatus == old(closedStatus) + ClosedIds(statuses) && r == closedStatus
      ensures versions == old(versions) && order == old(order)
    {
      for i := 0 to |statuses|
        invariant closedStatus == old(closedStatus) + ClosedIds(statuses[..i])
        invariant versions == old(versions) && order == old(order)
      {
        assert statuses[..i + 1][..i] == statuses[..i];
        if statuses[i].isClosed {
          closedStatus := closedStatus + [statuses[i].id];
        }
      }
      assert statuses[..|statuses|] == statuses;
      r := closedStatus;
    }
  }

  /** A version as reported by the release check. */
  datatype Named = Named(id: string, name: string)

  /** The output dict of `check_redemine_release`; `errors` is `None` for `{}`. */
  datatype ReleaseCheck = ReleaseCheck(
    check: bool, info: string, errors: Option<Named>,
    passed: seq<Named>, failed: seq<Named>, failedName: seq<string>,
    issues: seq<Issue>, unclosedIssues: seq<Issue>, versions: seq<int>)

  const Fresh := ReleaseCheck(true, "", None, [], [], [], [], [], [])

  const NotAnInt := ValueErr("invalid literal for int() with base 10")
  const NoSuchVersion := Crash("KeyError: version")

  /** One target of the release check; `names` maps a version id to its name. */
  function TargetStep(out: ReleaseCheck, t: VersionStat, names: map<string, string>, mainVersion: Option<string>): Result<ReleaseCheck> {
    if ParseInt(t.id).None? then Err(NotAnInt)
    else if t.id !in names then Err(NoSuchVersion)
    else
      var named := Named(t.id, names[t.id]);
      var o := out.(issues := out.issues + t.issues, versions := out.versions + [ParseInt(t.id).value],
                    errors := if mainVersion == Some(t.id) then Some(named) else out.errors);
      if t.unclosed != 0 then
        Ok(o.(check := false, failed := o.failed + [named], failedName := o.failedName + [named.name],
              unclosedIssues := o.unclosedIssues + t.issues))
      else Ok(o.(passed := o.passed + [named]))
  }

  /** The loop of `check_redemine_release` over the targets. */
  function Targets(targets: seq<VersionStat>, names: map<string, string>, mainVersion: Option<string>): (r: Result<ReleaseCheck>)
    ensures r.Err? ==> r.error == NotAnInt || r.error == NoSuchVersion
    ensures r.Ok? ==> r.value.info == "" && (r.value.check <==> r.value.failedName == [])
  {
    if targets == [] then Ok(Fresh)
    else match Targets(targets[..|targets| - 1], names, mainVersion)
      case Err(e) => Err(e)
      case Ok(out) => TargetStep(out, targets[|targets| - 1], names, mainVersion)
  }

  function FailedInfo(failedName: seq<string>): string {
    "Issue is not closed in version " + Join(failedName, " ") + " in redmine"
  }

  /** `check_redemine_release`. */
  function ReleaseChecked(targets: seq<VersionStat>, names: map<string, string>, mainVersion: Option<string>): (r: Result<ReleaseCheck>)
    ensures r.Err? ==> r.error == NotAnInt || r.error == NoSuchVersion
    ensures r.Ok? ==> (r.value.check <==> r.value.info == "")
    ensures r.Ok? && !r.value.check ==> r.value.info == FailedInfo(r.value.failedName)
  {
    match Targets(targets, names, mainVersion)
    case Err(e) => Err(e)
    case Ok(out) => Ok(if |out.failedName| > 0 then out.(info := FailedInfo(out.failedName)) else out)
  }

  function AllIssues(targets: seq<VersionStat>): seq<Issue> {
    if targets == [] then [] else AllIssues(targets[..|targets| - 1]) + targets[|targets| - 1].issues
  }

  predicate TargetBad(t: VersionStat, names: map<string, string>) {
    ParseInt(t.id).None? || t.id !in names
  }

  /** Once a prefix of the targets fails, the whole loop fails with that error. */
  lemma {:induction false} TargetsErrKept(targets: seq<VersionStat>, j: nat, names: map<string, string>, mainVersion: Option<string>)
    requires j <= |targets| && Targets(targets[..j], names, mainVersion).Err?
    ensures Targets(targets, names, mainVersion) == Targets(targets[..j], names, mainVersion)
  {
    if j < |targets| {
      var init := targets[..|targets| - 1];
      assert init[..j] == targets[..j];
      TargetsErrKept(init, j, names, mainVersion);
    } else {
      assert targets[..j] == targets;
    }
  }

  /** The loop fails exactly when a target's id is no integer or names no version. */
  lemma {:induction false} TargetsFail(targets: seq<VersionStat>, names: map<string, string>, mainVersion: Option<string>)
    ensures Targets(targets, names, mainVersion).Err? <==> exists k :: 0 <= k < |targets| && TargetBad(targets[k], names)
  {
    if targets != [] {
      var init := targets[..|targets| - 1];
      TargetsFail(init, names, mainVersion);
      assert forall k :: 0 <= k < |init| ==> init[k] == targets[k];
    }
  }

  /** Check is false exactly when some target has unclosed issues, and
      exactly when some version name was recorded as failed; the info text
      is left empty by the loop. */
  lemma {:induction false} TargetsCheck(targets: seq<VersionStat>, names: map<string, string>, mainVersion: Option<string>)
    ensures Targets(targets, names, mainVersion).Ok? ==>
      var o := Targets(targets, names, mainVersion).value;
      (!o.check <==> exists k :: 0 <= k < |targets| && targets[k].unclosed != 0) &&
      (o.check <==> o.failedName == []) && o.info == ""
  {
    if targets != [] {
      var init := targets[..|targets| - 1];
      TargetsCheck(init, names, mainVersion);
      var prev := Targets(init, names, mainVersion);
      if prev.Ok? {
        StepCheck(prev.value, targets[|targets| - 1], names, mainVersion);
        UnclosedSplit(targets);
      }
    }
  }

  /** One target clears the check exactly when it has unclosed issues. */
  lemma StepCheck(out: ReleaseCheck, t: VersionStat, names: map<string, string>, mainVersion: Option<string>)
    ensures TargetStep(out, t, names, mainVersion).Ok? ==>
      (TargetStep(out, t, names, mainVersion).value.check <==> out.check && t.unclosed == 0)
  {
  }

  /** Some target has unclosed issues. */
  predicate SomeUnclosed(targets: seq<VersionStat>) {
    exists k :: 0 <= k < |targets| && targets[k].unclosed != 0
  }

  /** Some target has unclosed issues exactly when an earlier one or the last one has. */
  lemma UnclosedSplit(targets: seq<VersionStat>)
    requires targets != []
    ensures SomeUnclosed(targets) <==> SomeUnclosed(targets[..|targets| - 1]) || targets[|targets| - 1].unclosed != 0
  {
    var init := targets[..|targets| - 1];
    assert forall k :: 0 <= k < |init| ==> init[k] == targets[k];
  }

  /** The issues are all targets' issues in order and every target is
      either passed or failed. */
  lemma {:induction false} TargetsCollect(targets: seq<VersionStat>, names: map<string, string>, mainVersion: Option<string>)
    ensures Targets(targets, names, mainVersion).Ok? ==>
      var o := Targets(targets, names, mainVersion).value;
      o.issues == AllIssues(targets) && |o.passed| + |o.failed| == |targets| && |o.failed| == |o.failedName|
  {
    if targets != [] {
      TargetsCollect(targets[..|targets| - 1], names, mainVersion);
    }
  }

  /** The versions are the targets' int ids, in order. */
  lemma {:induction false} TargetsVersions(targets: seq<VersionStat>, names: map<string, string>, mainVersion: Option<string>)
    ensures Targets(targets, names, mainVersion).Ok? ==>
      var o := Targets(targets, names, mainVersion).value;
      |o.versions| == |targets| && forall k :: 0 <= k < |targets| ==> Some(o.versions[k]) == ParseInt(targets[k].id)
  {
    if targets != [] {
      var init := targets[..|targets| - 1];
      TargetsVersions(init, names, mainVersion);
      if Targets(targets, names, mainVersion).Ok? {
        var o := Targets(init, names, mainVersion).value;
        VersionsAppended(o.versions, Targets(targets, names, mainVersion).value.versions, init, targets);
      }
    }
  }

  lemma VersionsAppended(before: seq<int>, after: seq<int>, init: seq<VersionStat>, targets: seq<VersionStat>)
    requires targets != [] && init == targets[..|targets| - 1]
    requires |before| == |init| && forall k :: 0 <= k < |init| ==> Some(before[k]) == ParseInt(init[k].id)
    requires ParseInt(targets[|targets| - 1].id).Some?
    requires after == before + [ParseInt(targets[|targets| - 1].id).value]
    ensures |after| == |targets| && forall k :: 0 <= k < |targets| ==> Some(after[k]) == ParseInt(targets[k].id)
  {
    assert forall k :: 0 <= k < |init| ==> init[k] == targets[k];
  }

  /** The check passes exactly when no target has unclosed issues, and the
      info text is set exactly when it does not pass. */
  lemma ReleaseCheckedMeaning(targets: seq<VersionStat>, names: map<string, string>, mainVersion: Option<string>)
    requires forall k :: 0 <= k < |targets| ==> !TargetBad(targets[k], names)
    ensures ReleaseChecked(targets, names, mainVersion).Ok?
    ensures var o := ReleaseChecked(targets, names, mainVersion).value;
      (o.check <==> forall k :: 0 <= k < |targets| ==> targets[k].unclosed == 0) &&
      (o.info != "" <==> !o.check) &&
      (!o.check ==> o.info == FailedInfo(o.failedName)) &&
      o.issues == AllIssues(targets) &&
      |o.versions| == |targets| && forall k :: 0 <= k < |targets| ==> Some(o.versions[k]) == ParseInt(targets[k].id)
  {
    TargetsFail(targets, names, mainVersion);
    TargetsCheck(targets, names, mainVersion);
    TargetsCollect(targets, names, mainVersion);
    TargetsVersions(targets, names, mainVersion);
  }

  /** `check_redemine_release` as the loop the source writes. */
  method CheckRedemineRelease(targets: seq<VersionStat>, names: map<string, string>, mainVersion: Option<string>)
    returns (r: Result<ReleaseCheck>)
    ensures r == ReleaseChecked(targets, names, mainVersion)
  {
    var out := Fresh;
    for i := 0 to |targets|
      invariant Targets(targets[..i], names, mainVersion) == Ok(out)
    {
      assert targets[..i + 1][..i] == targets[..i];
      var t := targets[i];
      var n := ParseInt(t.id);
      if n.None? {
        TargetsErrKept(targets, i + 1, names, mainVersion);
        return Err(NotAnInt);
      }
      out := out.(issues := out.issues + t.issues, versions := out.versions + [n.value]);
      if t.id !in names {
        TargetsErrKept(targets, i + 1, names, mainVersion);
        return Err(NoSuchVersion);
      }
      if mainVersion == Some(t.id) {
        out := out.(errors := Some(Named(t.id, names[t.id])));
      }
      if t.unclosed != 0 {
        out := out.(check := false, failed := out.failed + [Named(t.id, names[t.id])],
                    failedName := out.failedName + [names[t.id]],
                    unclosedIssues := out.unclosedIssues + t.issues);
      } else {
        out := out.(passed := out.passed + [Named(t.id, names[t.id])]);
      }
    }
    assert targets[..|targets|] == targets;
    if |out.failedName| > 0 {
      out := out.(info := FailedInfo(out.failedName));
    }
    r := Ok(out);
  }
}
