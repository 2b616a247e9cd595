/** The GitLab helpers of `apis/resources/gitlab.py` that compute rather
    than call GitLab: commit urls, tag lookup, commit filters, the
    multi-file commit request, page numbers, job counts and the issue ids
    in a commit title. GitLab's replies are parameters. */
module Gitlab {
  import opened Wrappers
  import opened Strs
  import opened PyMath

  /** `commit_id_to_url`: the repository's http url without its last four
      characters (".git"), then "/-/commit/" and the commit id. */
  function CommitIdToUrl(httpUrl: string, commitId: string): (r: string)
    ensures |httpUrl| >= 4 ==> r == httpUrl[..|httpUrl| - 4] + "/-/commit/" + commitId
    ensures |httpUrl| < 4 ==> r == "/-/commit/" + commitId
  {
    Slice(httpUrl, 0, -4) + "/-/commit/" + commitId
  }

  /** For a url ending in ".git" the commit page hangs off the repository's
      own web address. */
  lemma CommitUrlOfGitUrl(base: string, commitId: string)
    ensures CommitIdToUrl(base + ".git", commitId) == base + "/-/commit/" + commitId
  {
    assert (base + ".git")[..|base|] == base;
  }

  /** `is_tag_exist`: the tags GitLab returns for the search, each with its
      optional "name". True exactly when one is named the pattern itself. */
  method IsTagExist(tagNames: seq<Option<string>>, pattern: string) returns (result: bool)
    ensures result <==> Some(pattern) in tagNames
  {
    result := false;
    var i := 0;
    while i < |tagNames|
      invariant 0 <= i <= |tagNames|
      invariant Some(pattern) !in tagNames[..i]
    {
      if tagNames[i] == Some(pattern) {
        result := true;
        break;
      }
      assert tagNames[..i + 1] == tagNames[..i] + [tagNames[i]];
      i := i + 1;
    }
    if !result {
      assert tagNames[..i] == tagNames;
    }
  }

  /** A commit as GitLab lists it; a name is `None` when the key is absent. */
  datatype Commit = Commit(id: string, authorName: Option<string>, committerName: Option<string>)

  /** The commits a rule keeps, in their order. */
  function Kept(commits: seq<Commit>, keep: Commit -> bool): seq<Commit> {
    if commits == [] then []
    else
      Kept(commits[..|commits| - 1], keep) +
      (if keep(commits[|commits| - 1]) then [commits[|commits| - 1]] else [])
  }

  /** A filter keeps exactly the commits its rule accepts, never adds one,
      keeps everything when the rule accepts everything, and works piecewise. */
  lemma {:induction false} KeptMeaning(commits: seq<Commit>, keep: Commit -> bool)
    ensures forall c :: c in Kept(commits, keep) <==> c in commits && keep(c)
    ensures |Kept(commits, keep)| <= |commits|
    ensures (forall k :: 0 <= k < |commits| ==> keep(commits[k])) ==> Kept(commits, keep) == commits
  {
    if commits != [] {
      var init := commits[..|commits| - 1];
      KeptMeaning(init, keep);
      assert commits == init + [commits[|commits| - 1]];
      assert forall k :: 0 <= k < |init| ==> init[k] == commits[k];
    }
  }

  lemma {:induction false} KeptConcat(a: seq<Commit>, b: seq<Commit>, keep: Commit -> bool)
    ensures Kept(a + b, keep) == Kept(a, keep) + Kept(b, keep)
  {
    if b == [] {
      assert a + b == a;
    } else {
      var init := b[..|b| - 1];
      var last := b[|b| - 1];
      assert (a + b)[..|a + b| - 1] == a + init;
      assert (a + b)[|a + b| - 1] == last;
      KeptConcat(a, init, keep);
      var tail := if keep(last) then [last] else [];
      assert Kept(a + b, keep) == Kept(a + init, keep) + tail;
      assert Kept(b, keep) == Kept(init, keep) + tail;
    }
  }

  /** The rule of `gl_get_commits_by_author`: the author differs from the
      filter (a commit without an author is kept). */
  predicate NotAuthoredBy(c: Commit, name: string) {
    c.authorName != Some(name)
  }

  /** `gl_get_commits_by_author`: no filter gives every commit; a filter
      drops the commits whose author is that name. */
  method CommitsByAuthor(commits: seq<Commit>, filter: Option<string>) returns (output: seq<Commit>)
    ensures filter.None? ==> output == commits
    ensures filter.Some? ==> output == Kept(commits, c => NotAuthoredBy(c, filter.value))
  {
    if filter.None? {
      return commits;
    }
    var name := filter.value;
    output := [];
    for i := 0 to |commits|
      invariant output == Kept(commits[..i], c => NotAuthoredBy(c, name))
    {
      assert commits[..i + 1][..i] == commits[..i];
      if commits[i].authorName != Some(name) {
        output := output + [commits[i]];
      }
    }
    assert commits[..|commits|] == commits;
  }

  /** `dict.get(key, "")` on an optional name. */
  function OrEmpty(name: Option<string>): string {
    if name.Some? then name.value else ""
  }

  const Administrator := "Administrator"
  const ManagerBot := "專案管理機器人"

  /** The rule of `gl_get_commits_by_members`: neither author nor committer
      is the administrator, and neither name starts with the project
      manager bot's name (an absent name reads as ""). */
  predicate ByMember(c: Commit) {
    c.authorName != Some(Administrator) && c.committerName != Some(Administrator) &&
    !StartsWith(OrEmpty(c.authorName), ManagerBot) &&
    !StartsWith(OrEmpty(c.committerName), ManagerBot)
  }

  /** `gl_get_commits_by_members`. */
  method CommitsByMembers(commits: seq<Commit>) returns (output: seq<Commit>)
    ensures output == Kept(commits, ByMember)
  {
    output := [];
    for i := 0 to |commits|
      invariant output == Kept(commits[..i], ByMember)
    {
      assert commits[..i + 1][..i] == commits[..i];
      var c := commits[i];
      if c.authorName != Some(Administrator) && c.committerName != Some(Administrator) &&
         !StartsWith(OrEmpty(c.authorName), ManagerBot) &&
         !StartsWith(OrEmpty(c.committerName), ManagerBot)
      {
        output := output + [c];
      }
    }
    assert commits[..|commits|] == commits;
  }

  /** Commits by the bot never reach the member list. */
  lemma BotCommitsDropped(commits: seq<Commit>, c: Commit, suffix: string)
    requires c.authorName == Some(ManagerBot + suffix)
    ensures c !in Kept(commits, ByMember)
  {
    KeptMeaning(commits, ByMember);
    assert (ManagerBot + suffix)[..|ManagerBot|] == ManagerBot;
  }

  /** One entry of a multi-file commit; an absent key reads as "". */
  datatype FileAction = FileAction(action: string, filePath: string, content: string)

  /** The request `create_multiple_file_commit` sends to GitLab. */
  datatype CommitRequest = CommitRequest(branch: string, authorEmail: string, authorName: string,
                                         commitMessage: string, actions: seq<FileAction>)

  const MultiFileError := DevOps(400, "Error when create multiple file commit.")
  const FallbackHeader := "Add or update files\n\n"

  predicate Complete(f: FileAction) {
    f.action != "" && f.filePath != "" && f.content != ""
  }

  predicate AllComplete(files: seq<FileAction>) {
    forall k :: 0 <= k < |files| ==> Complete(files[k])
  }

  predicate Truthy(s: Option<string>) {
    s.Some? && s.value != ""
  }

  /** The text after the last '/' of a path. */
  function LastComponent(path: string): (r: string)
    ensures '/' !in r && |r| <= |path| && r == path[|path| - |r|..]
  {
    if path == [] || path[|path| - 1] == '/' then []
    else LastComponent(path[..|path| - 1]) + [path[|path| - 1]]
  }

  /** A path without its trailing '/' characters. */
  function TrimSlashes(path: string): (r: string)
    ensures |r| <= |path| && r == path[..|r|] && (r == [] || r[|r| - 1] != '/')
  {
    if path != [] && path[|path| - 1] == '/' then TrimSlashes(path[..|path| - 1]) else path
  }

  /** The name of a POSIX path (`stem` + `suffix` of a `pathlib.Path`): its
      last component once empty components and "." components are dropped,
      or "" when none is left. */
  function FileName(path: string): (r: string)
    ensures '/' !in r && r != "." && |r| <= |path|
    decreases |path|
  {
    var p := TrimSlashes(path);
    if p == [] then []
    else if LastComponent(p) == "." then FileName(p[..|p| - 1])
    else LastComponent(p)
  }

  /** A component after the last '/' is the last component. */
  lemma {:induction false} LastComponentAfter(dir: string, name: string)
    requires '/' !in name
    ensures LastComponent(dir + "/" + name) == name
    ensures LastComponent(name) == name
  {
    if name != [] {
      var n := name[..|name| - 1];
      assert dir + "/" + name == (dir + "/" + n) + [name[|name| - 1]];
      assert name == n + [name[|name| - 1]];
      LastComponentAfter(dir, n);
    } else {
      assert dir + "/" + name == dir + "/";
    }
  }

  /** A path ending in a proper component is named by it. */
  lemma FileNameOfName(dir: string, name: string)
    requires '/' !in name && name != [] && name != "."
    ensures FileName(dir + "/" + name) == name
    ensures FileName(name) == name
  {
    LastComponentAfter(dir, name);
  }

  /** A trailing '/' does not change the name. */
  lemma FileNameSlash(path: string)
    ensures FileName(path + "/") == FileName(path)
  {
    var q := path + "/";
    assert q[..|q| - 1] == path;
    assert TrimSlashes(q) == TrimSlashes(path);
  }

  /** A trailing "." component does not change the name. */
  lemma FileNameDot(path: string)
    ensures FileName(path + "/.") == FileName(path)
  {
    var q := path + "/.";
    LastComponentAfter(path, ".");
    assert TrimSlashes(q) == q;
    assert q[..|q| - 1] == path + "/";
    FileNameSlash(path);
  }

  /** The fallback message line of one file. */
  function FileLine(f: FileAction): string {
    "- " + Capitalize(f.action) + " " + FileName(f.filePath) + "\n"
  }

  function Lines(files: seq<FileAction>): string {
    if files == [] then ""
    else Lines(files[..|files| - 1]) + FileLine(files[|files| - 1])
  }

  /** What `create_multiple_file_commit` sends: an incomplete file is refused;
      otherwise the given branch or else the default one, and the given
      message or else the header followed by one line per file. */
  function MultipleFileCommit(files: seq<FileAction>, branch: Option<string>, commitMessage: Option<string>,
                              defaultBranch: string): Result<CommitRequest>
  {
    if !AllComplete(files) then Err(MultiFileError)
    else
      Ok(CommitRequest(if Truthy(branch) then branch.value else defaultBranch,
                       "system@iiidevops.org.tw", "iiidevops",
                       if Truthy(commitMessage) then commitMessage.value else FallbackHeader + Lines(files),
                       files))
  }

  /** `create_multiple_file_commit`, up to the request it would send. */
  method CreateMultipleFileCommit(files: seq<FileAction>, branch: Option<string>, commitMessage: Option<string>,
                                  defaultBranch: string) returns (r: Result<CommitRequest>)
    ensures r == MultipleFileCommit(files, branch, commitMessage, defaultBranch)
  {
    var lines := "";
    for i := 0 to |files|
      invariant lines == Lines(files[..i])
      invariant AllComplete(files[..i])
    {
      var f := files[i];
      if !Complete(f) {
        return Err(MultiFileError);
      }
      LinesStep(files, i);
      CompleteStep(files, i);
      lines := lines + FileLine(f);
    }
    assert files[..|files|] == files;
    var fallback := FallbackHeader + lines;
    var b := if branch.Some? && branch.value != "" then branch.value else defaultBranch;
    var m := if commitMessage.Some? && commitMessage.value != "" then commitMessage.value else fallback;
    r := Ok(CommitRequest(b, "system@iiidevops.org.tw", "iiidevops", m, files));
  }

  lemma LinesStep(files: seq<FileAction>, i: nat)
    requires i < |files|
    ensures Lines(files[..i + 1]) == Lines(files[..i]) + FileLine(files[i])
  {
    assert files[..i + 1][..i] == files[..i];
  }

  lemma CompleteStep(files: seq<FileAction>, i: nat)
    requires i < |files| && AllComplete(files[..i]) && Complete(files[i])
    ensures AllComplete(files[..i + 1])
  {
    assert forall k :: 0 <= k < i ==> files[..i + 1][k] == files[..i][k];
  }

  /** The fallback message lists the files in order, one line each: the
      lines of the first `k` files, then file `k`'s line, start it. */
  lemma {:induction false} LinesInOrder(files: seq<FileAction>, k: nat)
    requires k < |files|
    ensures StartsWith(Lines(files), Lines(files[..k]) + FileLine(files[k]))
    decreases |files|
  {
    var init := files[..|files| - 1];
    if k == |files| - 1 {
      assert files[..k] == init;
    } else {
      LinesInOrder(init, k);
      assert init[..k] == files[..k] && init[k] == files[k];
      var p := Lines(files[..k]) + FileLine(files[k]);
      assert Lines(files) == Lines(init) + FileLine(files[|files| - 1]);
      assert Lines(files)[..|p|] == Lines(init)[..|p|];
    }
  }

  /** The request is refused exactly when some file lacks an action, a path
      or content; otherwise it carries the files unchanged, and without a
      message of its own the listing of the files. */
  lemma MultipleFileCommitMeaning(files: seq<FileAction>, branch: Option<string>, commitMessage: Option<string>,
                                  defaultBranch: string)
    ensures MultipleFileCommit(files, branch, commitMessage, defaultBranch).Err? <==>
              exists k :: 0 <= k < |files| && !Complete(files[k])
    ensures forall k :: 0 <= k < |files| && (files[k].action == "" || files[k].content == "") ==>
              MultipleFileCommit(files, branch, commitMessage, defaultBranch) == Err(MultiFileError)
    ensures MultipleFileCommit(files, branch, commitMessage, defaultBranch).Err? ==>
              MultipleFileCommit(files, branch, commitMessage, defaultBranch).error == MultiFileError
    ensures MultipleFileCommit(files, branch, commitMessage, defaultBranch).Ok? ==>
              var q := MultipleFileCommit(files, branch, commitMessage, defaultBranch).value;
              q.actions == files && (defaultBranch != "" ==> q.branch != "") &&
              (Truthy(branch) ==> q.branch == branch.value) &&
              (Truthy(commitMessage) ==> q.commitMessage == commitMessage.value) &&
              (!Truthy(commitMessage) ==> StartsWith(q.commitMessage, FallbackHeader))
  {
  }

  /** `__gl_start_convert_page`: the page holding item `start` when pages
      have `limit` items; a zero limit raises. */
  function StartConvertPage(start: int, limit: int): (r: Result<int>)
    ensures limit == 0 <==> r.Err?
  {
    if limit == 0 then Err(Crash("integer division or modulo by zero")) else Ok(FloorDiv(start, limit) + 1)
  }

  /** For a non-negative offset the page is a 1-based page number whose
      items include the one at `start`. */
  lemma StartConvertPageHolds(start: int, limit: int)
    requires start >= 0 && limit > 0
    ensures StartConvertPage(start, limit).Ok?
    ensures var page := StartConvertPage(start, limit).value;
            page >= 1 && (page - 1) * limit <= start < page * limit
  {
    var q := FloorDiv(start, limit);
    assert limit * q <= start < limit * q + limit;
  }

  datatype Job = Job(status: string, commitTitle: string)

  datatype JobsStatus = JobsStatus(total: nat, success: nat, commitMessage: Option<string>)

  function CountSuccess(jobs: seq<Job>): nat {
    if jobs == [] then 0
    else CountSuccess(jobs[..|jobs| - 1]) + (if jobs[|jobs| - 1].status == "success" then 1 else 0)
  }

  /** `get_pipeline_jobs_status`: the number of jobs and of successful ones;
      with the commit message requested, the title of the first job's
      commit (no job at all raises). */
  function PipelineJobsStatus(jobs: seq<Job>, withCommitMsg: bool): (r: Result<JobsStatus>)
    ensures r.Err? <==> withCommitMsg && jobs == []
    ensures r.Ok? ==> r.value.total == |jobs| && r.value.success == CountSuccess(jobs)
    ensures r.Ok? && withCommitMsg ==> r.value.commitMessage == Some(jobs[0].commitTitle)
    ensures r.Ok? && !withCommitMsg ==> r.value.commitMessage.None?
  {
    if withCommitMsg && jobs == [] then Err(Crash("list index out of range"))
    else Ok(JobsStatus(|jobs|, CountSuccess(jobs), if withCommitMsg then Some(jobs[0].commitTitle) else None))
  }

  /** The success count never exceeds the total, equals it exactly when
      every job succeeded, and is zero exactly when none did. */
  lemma {:induction false} CountSuccessBounds(jobs: seq<Job>)
    ensures CountSuccess(jobs) <= |jobs|
    ensures CountSuccess(jobs) == |jobs| <==> forall k :: 0 <= k < |jobs| ==> jobs[k].status == "success"
    ensures CountSuccess(jobs) == 0 <==> forall k :: 0 <= k < |jobs| ==> jobs[k].status != "success"
  {
    if jobs != [] {
      var init := jobs[..|jobs| - 1];
      CountSuccessBounds(init);
      assert forall k :: 0 <= k < |init| ==> init[k] == jobs[k];
    }
  }

  /** The length of the run of digits a string starts with. */
  function DigitRun(s: string): (n: nat)
    ensures n <= |s| && AllDigits(s[..n]) && (n < |s| ==> !IsDigit(s[n]))
  {
    if s != [] && IsDigit(s[0]) then 1 + DigitRun(s[1..]) else 0
  }

  /** Python's `re.findall(r"#(\d+)", s)`: the digits after each '#' that is
      followed by one, left to right, each match resuming after its digits. */
  function HashNumbers(s: string): (r: seq<string>)
    ensures forall k :: 0 <= k < |r| ==> r[k] != "" && AllDigits(r[k])
    decreases |s|
  {
    if |s| < 2 then []
    else if s[0] == '#' && IsDigit(s[1]) then
      var n := DigitRun(s[1..]);
      assert s[1..1 + n] == s[1..][..n];
      [s[1..1 + n]] + HashNumbers(s[1 + n..])
    else HashNumbers(s[1..])
  }

  /** A text without '#' holds no issue reference. */
  lemma {:induction false} HashNumbersNone(s: string)
    requires '#' !in s
    ensures HashNumbers(s) == []
    decreases |s|
  {
    if |s| >= 2 {
      assert s[0] != '#';
      assert forall c :: c in s[1..] ==> c in s;
      HashNumbersNone(s[1..]);
    }
  }

  /** "#" and a maximal run of digits is one reference, and the search goes
      on right after it. */
  lemma HashNumbersLead(digits: string, rest: string)
    requires digits != [] && AllDigits(digits)
    requires rest == [] || !IsDigit(rest[0])
    ensures HashNumbers("#" + digits + rest) == [digits] + HashNumbers(rest)
  {
    var s := "#" + digits + rest;
    assert s[1..] == digits + rest;
    DigitRunOf(digits, rest);
    assert s[1..1 + |digits|] == digits;
    assert s[1 + |digits|..] == rest;
  }

  lemma {:induction false} DigitRunOf(digits: string, rest: string)
    requires AllDigits(digits)
    requires rest == [] || !IsDigit(rest[0])
    ensures DigitRun(digits + rest) == |digits|
  {
    if digits != [] {
      assert (digits + rest)[1..] == digits[1..] + rest;
      DigitRunOf(digits[1..], rest);
    }
  }

  /** The referenced numbers that name one of the known issues, as ints. */
  function KnownNumbers(found: seq<string>, issueList: seq<string>): (r: seq<int>)
    requires forall k :: 0 <= k < |found| ==> AllDigits(found[k])
  {
    if found == [] then []
    else
      var tail := KnownNumbers(found[1..], issueList);
      if found[0] in issueList then [DigitsValue(found[0])] + tail else tail
  }

  /** The issue ids a commit title refers to (`#<id>`), kept when they are
      in the root plan project's issue list. */
  function CommitIssueIds(title: string, issueList: seq<string>): seq<int> {
    KnownNumbers(HashNumbers(title), issueList)
  }

  /** When the issue list is the decimal text of the project's issue ids,
      every id taken from a title is one of those issues. */
  lemma {:induction false} KnownNumbersAreIssues(found: seq<string>, ids: seq<nat>, issueList: seq<string>)
    requires forall k :: 0 <= k < |found| ==> AllDigits(found[k])
    requires |issueList| == |ids| && forall k :: 0 <= k < |ids| ==> issueList[k] == NatToString(ids[k])
    ensures forall x :: x in KnownNumbers(found, issueList) ==> x in ids
  {
    if found != [] {
      KnownNumbersAreIssues(found[1..], ids, issueList);
      if found[0] in issueList {
        var k :| 0 <= k < |issueList| && issueList[k] == found[0];
        DigitsValueOfNatToString(ids[k]);
      }
    }
  }

  lemma CommitIssueIdsAreIssues(title: string, ids: seq<nat>, issueList: seq<string>)
    requires |issueList| == |ids| && forall k :: 0 <= k < |ids| ==> issueList[k] == NatToString(ids[k])
    ensures forall x :: x in CommitIssueIds(title, issueList) ==> x in ids
  {
    KnownNumbersAreIssues(HashNumbers(title), ids, issueList);
  }
}
