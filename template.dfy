/** The template helpers of `apis/resources/template/__init__.py`: the tag
    version range test, the authenticated clone URL, the tool records of a
    pipeline, the tool name of a pipeline stage and the edit of a stage's
    branch list. */
module Template {
  import opened Wrappers
  import opened Strs
  import opened PyList

  // ---------------------------------------------------------------------
  // __compare_tag_version
  // ---------------------------------------------------------------------

  /** `version_parser`: every 'v' dropped, then split on '.'. */
  function VersionParts(v: string): (r: seq<string>)
    ensures |r| >= 1
  {
    Split(ReplaceAll(v, "v", ""), ".")
  }

  /** `parts + [0] * (3 - len(parts))`; a padded 0 parses like "0". */
  function Padded(parts: seq<string>): (r: seq<string>)
    ensures |r| >= 3
    ensures |parts| >= 3 ==> r == parts
    ensures |parts| < 3 ==> r[..|parts|] == parts && forall i :: |parts| <= i < 3 ==> r[i] == "0"
    decreases 3 - |parts|
  {
    if |parts| >= 3 then parts else Padded(parts + ["0"])
  }

  /** Lexicographic order on the first three components from position `i` on. */
  predicate TripleAtLeast(high: seq<int>, low: seq<int>, i: nat)
    requires i <= 3 && |high| >= 3 && |low| >= 3
    decreases 3 - i
  {
    i == 3 || high[i] > low[i] || (high[i] == low[i] && TripleAtLeast(high, low, i + 1))
  }

  /** What `ver_hight_greater_ver_low` returns from step `i` on: it parses the
      high and then the low component, and decides on the first difference. */
  function AtLeastFrom(low: seq<string>, high: seq<string>, i: nat): (r: Result<bool>)
    requires |low| >= 3 && |high| >= 3 && i < 3
    ensures r.Ok? ==> ParseInt(high[i]).Some? && ParseInt(low[i]).Some?
    ensures r.Err? ==> r.error == ValueErr("invalid literal for int() with base 10")
    decreases 3 - i
  {
    match (ParseInt(high[i]), ParseInt(low[i]))
    case (None, _) => Err(ValueErr("invalid literal for int() with base 10"))
    case (_, None) => Err(ValueErr("invalid literal for int() with base 10"))
    case (Some(h), Some(l)) =>
      if h > l then Ok(true)
      else if h < l then Ok(false)
      else if i == 2 then Ok(true)
      else AtLeastFrom(low, high, i + 1)
  }

  /** `ver_hight_greater_ver_low`: its while loop over the three components. */
  method VerHighGreaterVerLow(low: seq<string>, high: seq<string>) returns (r: Result<bool>)
    requires |low| >= 3 && |high| >= 3
    ensures r == AtLeastFrom(low, high, 0)
  {
    var i := 0;
    while i < 3
      invariant 0 <= i <= 2
      invariant AtLeastFrom(low, high, i) == AtLeastFrom(low, high, 0)
      decreases 3 - i
    {
      var h := ParseInt(high[i]);
      var l := ParseInt(low[i]);
      if h.None? || l.None? {
        return Err(ValueErr("invalid literal for int() with base 10"));
      }
      if h.value > l.value {
        return Ok(true);
      } else if h.value < l.value {
        return Ok(false);
      } else if i == 2 {
        return Ok(true);
      } else {
        i := i + 1;
      }
    }
    assert false;
  }

  /** The integer values of the first three components, when they parse. */
  predicate ParsesAsInts(parts: seq<string>, vals: seq<int>) {
    |parts| >= 3 && |vals| == 3 && forall i :: 0 <= i < 3 ==> ParseInt(parts[i]) == Some(vals[i])
  }

  /** On components that parse, the loop decides the lexicographic order,
      equal versions counting as "at least". */
  lemma {:induction false} AtLeastFromOrder(low: seq<string>, high: seq<string>, lv: seq<int>, hv: seq<int>, i: nat)
    requires ParsesAsInts(low, lv) && ParsesAsInts(high, hv) && i < 3
    ensures AtLeastFrom(low, high, i) == Ok(TripleAtLeast(hv, lv, i))
    decreases 3 - i
  {
    if i < 2 && hv[i] == lv[i] {
      AtLeastFromOrder(low, high, lv, hv, i + 1);
    } else if i == 2 && hv[i] == lv[i] {
      assert TripleAtLeast(hv, lv, 3);
    }
  }

  /** `__compare_tag_version`: whether the tag lies in the supported range;
      an empty end means no upper bound. A missing end (None) crashes. */
  function CompareTagVersion(tag: string, start: string, end: Option<string>): (r: Result<bool>)
  {
    var t := Padded(VersionParts(tag));
    var s := Padded(VersionParts(start));
    match end
    case Some("") => AtLeastFrom(s, t, 0)
    case None => Err(Crash("'NoneType' object has no attribute 'replace'"))
    case Some(e) =>
      var ev := Padded(VersionParts(e));
      match (AtLeastFrom(s, t, 0), AtLeastFrom(t, ev, 0))
      case (Err(x), _) => Err(x)
      case (_, Err(x)) => Err(x)
      case (Ok(overStart), Ok(lowEnd)) => Ok(overStart && lowEnd)
  }

  /** With parsed components the range test is start <= tag, and also
      tag <= end when an end is given, both bounds inclusive. */
  lemma TagVersionRange(tag: string, start: string, end: string, tv: seq<int>, sv: seq<int>, ev: seq<int>)
    requires ParsesAsInts(Padded(VersionParts(tag)), tv) && ParsesAsInts(Padded(VersionParts(start)), sv)
    requires end != "" ==> ParsesAsInts(Padded(VersionParts(end)), ev)
    ensures end == "" ==> CompareTagVersion(tag, start, Some(end)) == Ok(TripleAtLeast(tv, sv, 0))
    ensures end != "" ==>
      CompareTagVersion(tag, start, Some(end)) == Ok(TripleAtLeast(tv, sv, 0) && TripleAtLeast(ev, tv, 0))
  {
    AtLeastFromOrder(Padded(VersionParts(start)), Padded(VersionParts(tag)), sv, tv, 0);
    if end != "" {
      AtLeastFromOrder(Padded(VersionParts(tag)), Padded(VersionParts(end)), tv, ev, 0);
    }
  }

  /** The order is reflexive, so a tag equal to a bound is inside the range. */
  lemma {:induction false} TripleAtLeastRefl(v: seq<int>, i: nat)
    requires |v| >= 3 && i <= 3
    ensures TripleAtLeast(v, v, i)
    decreases 3 - i
  {
    if i < 3 {
      TripleAtLeastRefl(v, i + 1);
    }
  }

  // ---------------------------------------------------------------------
  // tm_get_secret_url, generate_temp_pipline_tool
  // ---------------------------------------------------------------------

  function Prefix(s: string, n: nat): string {
    if n <= |s| then s[..n] else s
  }

  function Suffix(s: string, n: nat): string {
    if n <= |s| then s[n..] else ""
  }

  /** The credentials `tm_get_secret_url` adds for the GitLab root user. */
  function Credentials(token: string): string {
    "root:" + token + "@"
  }

  /** `tm_get_secret_url`: the credentials go after the first eight characters
      when the URL starts with "https", after the first seven otherwise. */
  function SecretUrl(url: string, token: string): (r: string)
    ensures StartsWith(url, "https://") ==> r == "https://" + Credentials(token) + url[8..]
    ensures StartsWith(url, "http://") ==> r == "http://" + Credentials(token) + url[7..]
  {
    var cut := if Prefix(url, 5) == "https" then 8 else 7;
    assert StartsWith(url, "http://") ==> Prefix(url, 5)[4] == ':';
    Prefix(url, cut) + Credentials(token) + Suffix(url, cut)
  }

  /** Taking the credentials out again gives the original URL. */
  lemma SecretUrlRemovable(url: string, token: string)
    ensures var cut := if StartsWith(url, "https") then 8 else 7;
      var k := if cut <= |url| then cut else |url|;
      var r := SecretUrl(url, token);
      |r| == |url| + |Credentials(token)| && r[..k] + r[k + |Credentials(token)|..] == url
  {
    var cut := if Prefix(url, 5) == "https" then 8 else 7;
    assert Prefix(url, 5) == "https" <==> StartsWith(url, "https");
    var k := if cut <= |url| then cut else |url|;
    var r := SecretUrl(url, token);
    assert r == Prefix(url, cut) + Credentials(token) + Suffix(url, cut);
    assert r[..k] == Prefix(url, cut);
    assert r[k + |Credentials(token)|..] == Suffix(url, cut);
  }

  /** The record `generate_temp_pipline_tool` builds. */
  datatype TempTool = TempTool(key: string, name: string, enable: bool)

  /** `generate_temp_pipline_tool`: key and name are the first two
      comma-separated fields; a name without a comma raises IndexError. */
  function GenerateTempPipelineTool(toolName: string, enable: bool): (r: Result<TempTool>)
    ensures r.Err? <==> |Split(toolName, ",")| < 2
    ensures r.Ok? ==> r.value.key == Split(toolName, ",")[0] && r.value.name == Split(toolName, ",")[1]
    ensures r.Ok? ==> r.value.enable == enable
  {
    var parts := Split(toolName, ",");
    if |parts| < 2 then Err(Crash("list index out of range"))
    else Ok(TempTool(parts[0], parts[1], enable))
  }

  /** "key,name" gives back key and name. */
  lemma TempToolOfPair(key: string, name: string, enable: bool)
    requires ',' !in key && ',' !in name
    ensures GenerateTempPipelineTool(key + "," + name, enable) == Ok(TempTool(key, name, enable))
  {
    assert key + "," + name == Join([key, name], ",");
    SplitJoin([key, name], ',');
  }

  // ---------------------------------------------------------------------
  // get_tool_name
  // ---------------------------------------------------------------------

  const SonarQubeJavaStage := "Test--SonarQube for Java"
  const ChartPrefix := "iii-dev-charts3-"

  /** The tool name read from a catalog template "<catalog>:<chart>". */
  function ChartToolName(template: string): (r: Result<string>)
    ensures r.Err? <==> |Split(template, ":")| < 2
  {
    var parts := Split(template, ":");
    if |parts| < 2 then Err(Crash("list index out of range"))
    else
      var t := ReplaceAll(parts[1], ChartPrefix, "");
      if t == "web" then Ok("deployed-environments")
      else if StartsWith(t, "test-") then Ok(ReplaceAll(t, "test-", ""))
      else if StartsWith(t, "scan-") then Ok(ReplaceAll(t, "scan-", ""))
      else Ok(t)
  }

  /** `get_tool_name`. `steps` lists each step's `applyAppConfig.catalogTemplate`;
      an empty list stands for the IndexError on `steps[0]`. */
  function GetToolName(iiidevops: Option<string>, name: string, steps: seq<Option<string>>): (r: Result<string>)
    ensures iiidevops.Some? ==> r == Ok(iiidevops.value)
    ensures iiidevops.None? && StartsWith(name, SonarQubeJavaStage) ==> r == Ok("sonarqube")
    ensures iiidevops.None? && !StartsWith(name, SonarQubeJavaStage) ==>
      r == (if steps == [] then Err(Crash("list index out of range"))
            else if steps[0].None? then Ok("deployed-environments")
            else ChartToolName(steps[0].value))
  {
    if iiidevops.Some? then Ok(iiidevops.value)
    else if StartsWith(name, SonarQubeJavaStage) then Ok("sonarqube")
    else if steps == [] then Err(Crash("list index out of range"))
    else match steps[0]
      case None => Ok("deployed-environments")
      case Some(template) => ChartToolName(template)
  }

  /** Replacing a pattern in a text that does not contain it changes nothing. */
  lemma {:induction false} ReplaceAllAbsent(s: string, pat: string, rep: string)
    requires |pat| > 0 && !Contains(s, pat)
    ensures ReplaceAll(s, pat, rep) == s
    decreases |s|
  {
    if |s| >= |pat| {
      assert !OccursAt(s, pat, 0);
      assert s[..|pat|] != pat by { assert s[0..|pat|] == s[..|pat|]; }
      assert !Contains(s[1..], pat) by {
        forall j | 0 <= j <= |s[1..]| - |pat| ensures !OccursAt(s[1..], pat, j) {
          OccursShift(s, pat, j + 1);
        }
      }
      ReplaceAllAbsent(s[1..], pat, rep);
    }
  }

  /** A chart named with the charts prefix and a "test-"/"scan-" kind gives
      the bare tool name. */
  lemma ChartToolNameOfKind(catalog: string, kind: string, tool: string)
    requires kind == "test-" || kind == "scan-"
    requires ':' !in catalog && ':' !in tool
    requires !Contains(tool, ChartPrefix) && !Contains(tool, "test-") && !Contains(tool, "scan-")
    requires !Contains(kind + tool, ChartPrefix)
    ensures ChartToolName(catalog + ":" + ChartPrefix + kind + tool) == Ok(tool)
  {
    var chart := ChartPrefix + kind + tool;
    var t := kind + tool;
    ChartParts(catalog, kind, tool);
    assert chart == ChartPrefix + t;
    assert ReplaceAll(chart, ChartPrefix, "") == t by {
      PrefixStripped(t);
    }
    KindStripped(kind, tool);
  }

  /** A chart named by a plain tool, with or without the charts prefix,
      gives that tool. */
  lemma ChartToolNameOfTool(catalog: string, tool: string)
    requires ':' !in catalog && ':' !in tool
    requires !Contains(tool, ChartPrefix) && tool != "web" && !StartsWith(tool, "test-") && !StartsWith(tool, "scan-")
    ensures ChartToolName(catalog + ":" + ChartPrefix + tool) == Ok(tool)
    ensures ChartToolName(catalog + ":" + tool) == Ok(tool)
  {
    assert ':' !in ChartPrefix;
    NoColonJoined(ChartPrefix, tool);
    ColonParts(catalog, ChartPrefix + tool);
    AppendAssoc(catalog + ":", ChartPrefix, tool);
    PrefixStripped(tool);
    ColonParts(catalog, tool);
    ReplaceAllAbsent(tool, ChartPrefix, "");
  }

  /** The "web" chart, with or without the charts prefix, is the
      deployed-environments tool. */
  lemma ChartToolNameWeb(catalog: string)
    requires ':' !in catalog
    ensures ChartToolName(catalog + ":" + ChartPrefix + "web") == Ok("deployed-environments")
    ensures ChartToolName(catalog + ":web") == Ok("deployed-environments")
  {
    var web := "web";
    assert ':' !in ChartPrefix && ':' !in web;
    assert ChartToolName(catalog + ":" + ChartPrefix + "web") == Ok("deployed-environments") by {
      NoColonJoined(ChartPrefix, web);
      ColonParts(catalog, ChartPrefix + web);
      AppendAssoc(catalog + ":", ChartPrefix, web);
      PrefixStripped(web);
    }
    assert ChartToolName(catalog + ":web") == Ok("deployed-environments") by {
      assert !Contains(web, ChartPrefix);
      ColonParts(catalog, web);
      assert catalog + ":web" == catalog + ":" + web;
      ReplaceAllAbsent(web, ChartPrefix, "");
    }
  }

  /** Without an `iiidevops` field, outside the SonarQube Java stage, the
      first step decides: no catalog template is the deployed-environments
      tool, the "web" chart too, and a test or scan chart its bare tool. */
  lemma GetToolNameOfStep(name: string, catalog: string, kind: string, tool: string, rest: seq<Option<string>>)
    requires !StartsWith(name, SonarQubeJavaStage)
    requires kind == "test-" || kind == "scan-"
    requires ':' !in catalog && ':' !in tool
    requires !Contains(tool, ChartPrefix) && !Contains(tool, "test-") && !Contains(tool, "scan-")
    requires !Contains(kind + tool, ChartPrefix)
    ensures GetToolName(None, name, [None] + rest) == Ok("deployed-environments")
    ensures GetToolName(None, name, [Some(catalog + ":" + ChartPrefix + "web")] + rest) == Ok("deployed-environments")
    ensures GetToolName(None, name, [Some(catalog + ":" + ChartPrefix + kind + tool)] + rest) == Ok(tool)
  {
    ChartToolNameWeb(catalog);
    ChartToolNameOfKind(catalog, kind, tool);
  }

  lemma ChartParts(catalog: string, kind: string, tool: string)
    requires kind == "test-" || kind == "scan-"
    requires ':' !in catalog && ':' !in tool
    ensures Split(catalog + ":" + ChartPrefix + kind + tool, ":") == [catalog, ChartPrefix + kind + tool]
  {
    var chart := ChartPrefix + kind + tool;
    assert ':' !in ChartPrefix + kind;
    NoColonJoined(ChartPrefix + kind, tool);
    ColonParts(catalog, chart);
    Regroup(catalog, ":", ChartPrefix, kind, tool);
  }

  lemma Regroup(a: string, b: string, c: string, d: string, e: string)
    ensures a + b + c + d + e == a + b + (c + d + e)
  {
    AppendAssoc(a + b, c, d);
    AppendAssoc(a + b, c + d, e);
  }

  lemma NoColonJoined(a: string, b: string)
    requires ':' !in a && ':' !in b
    ensures ':' !in a + b
  {
  }

  lemma ColonParts(a: string, b: string)
    requires ':' !in a && ':' !in b
    ensures Split(a + ":" + b, ":") == [a, b]
  {
    assert a + ":" + b == Join([a, b], ":") by {
      assert [a, b][1..] == [b];
    }
    SplitJoin([a, b], ':');
  }

  lemma PrefixStripped(t: string)
    requires !Contains(t, ChartPrefix)
    ensures ReplaceAll(ChartPrefix + t, ChartPrefix, "") == t
  {
    var chart := ChartPrefix + t;
    assert chart[..|ChartPrefix|] == ChartPrefix;
    assert chart[|ChartPrefix|..] == t;
    ReplaceAllAbsent(t, ChartPrefix, "");
  }

  lemma KindStripped(kind: string, tool: string)
    requires kind == "test-" || kind == "scan-"
    requires !Contains(tool, "test-") && !Contains(tool, "scan-")
    ensures var t := kind + tool;
            t != "web" && StartsWith(t, kind) && (kind == "scan-" ==> !StartsWith(t, "test-")) &&
            ReplaceAll(t, kind, "") == tool
  {
    var t := kind + tool;
    assert t[..5] == kind;
    assert t[5..] == tool;
    assert t != "web";
    assert kind == "scan-" ==> !StartsWith(t, "test-") by { assert t[0] == kind[0]; }
    assert ReplaceAll(t, kind, "") == tool by {
      ReplaceAllAbsent(tool, kind, "");
    }
  }

  // ---------------------------------------------------------------------
  // handle_stage_format, update_branches
  // ---------------------------------------------------------------------

  /** A value of the pipeline yaml as far as the branch edit looks at it. */
  datatype Node = Dict(entries: map<string, Node>) | List(items: seq<string>) | Other

  /** The path to a stage's branch list. */
  const BranchPath: seq<string> := ["when", "branch", "include"]

  /** What `handle_stage_format` returns from the dictionary `d` for the path
      still to follow: the first list met on the way, [] when a level is
      missing or neither a dictionary nor a list, or when the path ends in a
      dictionary. */
  function FormatAt(d: map<string, Node>, path: seq<string>): seq<string>
    decreases |path|
  {
    if path == [] then []
    else if path[0] in d && d[path[0]].Dict? then FormatAt(d[path[0]].entries, path[1..])
    else if path[0] in d && d[path[0]].List? then d[path[0]].items
    else []
  }

  /** `handle_stage_format_helper`: descend, stop with a list, or stop with []. */
  function FormatHelper(d: map<string, Node>, column: string): (r: Option<seq<string>>)
    ensures r.None? <==> column in d && d[column].Dict?
  {
    if column in d && d[column].Dict? then None
    else if column in d && d[column].List? then Some(d[column].items)
    else Some([])
  }

  /** `handle_stage_format`: its loop over "when", "branch", "include". */
  method HandleStageFormat(stage: map<string, Node>) returns (r: seq<string>)
    ensures r == FormatAt(stage, BranchPath)
  {
    var copy := stage;
    for i := 0 to |BranchPath|
      invariant FormatAt(copy, BranchPath[i..]) == FormatAt(stage, BranchPath)
    {
      assert BranchPath[i..][1..] == BranchPath[i + 1..];
      var ret := FormatHelper(copy, BranchPath[i]);
      if ret.Some? {
        return ret.value;
      }
      copy := copy[BranchPath[i]].entries;
    }
    return [];
  }

  /** The stage value holding `include` as its branch list. */
  function WhenNode(incl: seq<string>): Node {
    Dict(map["branch" := Dict(map["include" := List(incl)])])
  }

  /** A well-formed stage gives its include list back; a stage without "when"
      gives []. */
  lemma FormatOfWhen(stage: map<string, Node>, incl: seq<string>)
    ensures FormatAt(stage["when" := WhenNode(incl)], BranchPath) == incl
    ensures "when" !in stage ==> FormatAt(stage, BranchPath) == []
  {
    var s := stage["when" := WhenNode(incl)];
    assert BranchPath[1..] == ["branch", "include"];
    assert BranchPath[1..][1..] == ["include"];
    assert FormatAt(s, BranchPath) == FormatAt(map["branch" := Dict(map["include" := List(incl)])], ["branch", "include"]);
  }

  /** The include list after switching `branch` on or off, and whether that
      changed it. */
  function Toggled(cur: seq<string>, branch: string, enable: Option<bool>): (r: (seq<string>, bool))
    ensures enable == Some(true) ==> branch in r.0
    ensures enable == Some(false) && multiset(cur)[branch] <= 1 ==> branch !in r.0
    ensures forall b :: b != branch ==> (b in r.0 <==> b in cur)
  {
    if enable == Some(true) && branch !in cur then (cur + [branch], true)
    else if enable == Some(false) && branch in cur then
      RemoveFirstMultiset(cur, branch);
      assert forall b :: b in RemoveFirst(cur, branch) <==> multiset(RemoveFirst(cur, branch))[b] > 0;
      (RemoveFirst(cur, branch), true)
    else (cur, false)
  }

  /** The "skip" placeholder: it stands alone for an empty list and is
      dropped once from a list with other branches. */
  function Pruned(kept: seq<string>, changed: bool): (r: (seq<string>, bool))
    ensures |r.0| >= 1
    ensures r.0 == ["skip"] || forall b :: b in r.0 ==> b in kept
    ensures forall b :: b in kept && b != "skip" ==> b in r.0
  {
    if |kept| == 0 then (["skip"], true)
    else if |kept| > 1 && "skip" in kept then
      RemoveFirstMultiset(kept, "skip");
      assert forall b :: b in RemoveFirst(kept, "skip") <==> multiset(RemoveFirst(kept, "skip"))[b] > 0;
      (RemoveFirst(kept, "skip"), true)
    else (kept, changed)
  }

  /** The include list `update_branches` writes for a matching stage, and
      whether it reports a change. */
  function NewInclude(cur: seq<string>, branch: string, enable: Option<bool>, exist: seq<string>): (r: (seq<string>, bool))
  {
    var t := Toggled(cur, branch, enable);
    Pruned(KeepIn(t.0, exist), t.1)
  }

  /** The branch list is never empty, holds only existing branches unless it
      is the "skip" placeholder, lists an enabled existing branch and drops a
      disabled one (listed at most once, as `list.remove` drops one copy);
      other listed branches stay exactly when they exist. */
  lemma NewIncludeFacts(cur: seq<string>, branch: string, enable: Option<bool>, exist: seq<string>)
    ensures var r := NewInclude(cur, branch, enable, exist).0;
      |r| >= 1 && (r == ["skip"] || forall b :: b in r ==> b in exist)
    ensures enable == Some(true) && branch in exist && branch != "skip" ==>
      branch in NewInclude(cur, branch, enable, exist).0
    ensures enable == Some(false) && branch != "skip" && multiset(cur)[branch] <= 1 ==>
      branch !in NewInclude(cur, branch, enable, exist).0
    ensures forall b :: b != branch && b != "skip" ==>
      (b in NewInclude(cur, branch, enable, exist).0 <==> b in cur && b in exist)
  {
  }

  /** A pipeline stage: the fields `get_tool_name` reads and the others of the
      yaml stage, "when" among them, which `update_branches` rewrites. */
  class Stage {
    var iiidevops: Option<string>
    var name: string
    var steps: seq<Option<string>>
    var fields: map<string, Node>

    constructor (iiidevops: Option<string>, name: string, steps: seq<Option<string>>, fields: map<string, Node>)
      ensures this.iiidevops == iiidevops && this.name == name && this.steps == steps && this.fields == fields
    {
      this.iiidevops := iiidevops;
      this.name := name;
      this.steps := steps;
      this.fields := fields;
    }

    function ToolName(): Result<string>
      reads this
    {
      GetToolName(iiidevops, name, steps)
    }
  }

  /** `update_branches`: on a stage of the tool `softKey`, switches `branch`
      on or off in the stage's include list, keeps the existing branches only,
      and writes the list back; reports whether anything changed. */
  method UpdateBranches(stage: Stage, softKey: string, branch: string, enable: Option<bool>, exist: seq<string>)
    returns (r: Result<bool>)
    modifies stage
    ensures stage.iiidevops == old(stage.iiidevops) && stage.name == old(stage.name) && stage.steps == old(stage.steps)
    ensures stage.ToolName().Err? ==> r == Err(stage.ToolName().error) && stage.fields == old(stage.fields)
    ensures stage.ToolName().Ok? && stage.ToolName().value != softKey ==> r == Ok(false) && stage.fields == old(stage.fields)
    ensures stage.ToolName() == Ok(softKey) ==>
      var n := NewInclude(FormatAt(old(stage.fields), BranchPath), branch, enable, exist);
      r == Ok(n.1) && stage.fields == old(stage.fields)["when" := WhenNode(n.0)]
  {
    var tool := GetToolName(stage.iiidevops, stage.name, stage.steps);
    if tool.Err? {
      return Err(tool.error);
    }
    if tool.value != softKey {
      return Ok(false);
    }
    if "when" !in stage.fields {
      stage.fields := stage.fields["when" := WhenNode([])];
      FormatOfWhen(old(stage.fields), []);
    }
    var stageWhen := HandleStageFormat(stage.fields);
    var changed;
    stageWhen, changed := EditInclude(stageWhen, branch, enable, exist);
    stage.fields := stage.fields["when" := WhenNode(stageWhen)];
    return Ok(changed);
  }

  /** The list edits of `update_branches` on the current include list. */
  method EditInclude(cur: seq<string>, branch: string, enable: Option<bool>, exist: seq<string>)
    returns (stageWhen: seq<string>, changed: bool)
    ensures (stageWhen, changed) == NewInclude(cur, branch, enable, exist)
  {
    stageWhen := cur;
    changed := false;
    if enable == Some(true) && branch !in stageWhen {
      stageWhen := stageWhen + [branch];
      changed := true;
    } else if enable == Some(false) && branch in stageWhen {
      stageWhen := RemoveFirst(stageWhen, branch);
      changed := true;
    }
    stageWhen := KeepIn(stageWhen, exist);
    if |stageWhen| == 0 {
      stageWhen := ["skip"];
      changed := true;
    } else if |stageWhen| > 1 && "skip" in stageWhen {
      stageWhen := RemoveFirst(stageWhen, "skip");
      changed := true;
    }
  }
}
