/** Pipeline helpers of `apis/resources/pipeline.py`: the job list ordered by
    stage, the create-or-update request for the Rancher pipeline file, and
    the phase/software split of its stage names. GitLab's replies and the
    YAML/base64 encodings are parameters. */
module Pipeline {
  import opened Wrappers
  import opened Strs

  /** A job as GitLab reports it. */
  datatype Job = Job(id: int, name: string, status: string)

  /** An entry of `get_pipeline_job_status`. */
  datatype JobState = JobState(stageId: int, name: string, state: string)

  function ToState(j: Job): JobState {
    JobState(j.id, j.name, Capitalize(j.status))
  }

  function ToStates(jobs: seq<Job>): (r: seq<JobState>)
    ensures |r| == |jobs| && forall k :: 0 <= k < |jobs| ==> r[k] == ToState(jobs[k])
  {
    seq(|jobs|, k requires 0 <= k < |jobs| => ToState(jobs[k]))
  }

  predicate ByStage(xs: seq<JobState>) {
    forall i, j :: 0 <= i < j < |xs| ==> xs[i].stageId <= xs[j].stageId
  }

  /** `x` placed before the first entry with a stage id not below its own. */
  function Insert(x: JobState, xs: seq<JobState>): (r: seq<JobState>)
    ensures multiset(r) == multiset(xs) + multiset{x}
  {
    if xs == [] then [x]
    else if xs[0].stageId < x.stageId then
      assert xs == [xs[0]] + xs[1..];
      [xs[0]] + Insert(x, xs[1..])
    else [x] + xs
  }

  lemma {:induction false} InsertByStage(x: JobState, xs: seq<JobState>)
    requires ByStage(xs)
    ensures ByStage(Insert(x, xs))
    decreases |xs|
  {
    if xs != [] && xs[0].stageId < x.stageId {
      var t := xs[1..];
      assert forall k :: 0 <= k < |t| ==> t[k] == xs[k + 1];
      InsertByStage(x, t);
      var rest := Insert(x, t);
      forall k | 0 <= k < |rest| ensures xs[0].stageId <= rest[k].stageId {
        assert rest[k] in multiset(rest);
        if rest[k] != x {
          assert rest[k] in multiset(t);
        }
      }
      assert forall k :: 1 <= k < |rest| + 1 ==> ([xs[0]] + rest)[k] == rest[k - 1];
    }
  }

  /** `sorted(..., key=stage_id)`: a stable insertion sort. */
  function SortByStage(xs: seq<JobState>): (r: seq<JobState>)
    ensures multiset(r) == multiset(xs)
    ensures ByStage(r)
  {
    if xs == [] then []
    else
      assert xs == [xs[0]] + xs[1..];
      InsertByStage(xs[0], SortByStage(xs[1..]));
      Insert(xs[0], SortByStage(xs[1..]))
  }

  /** `get_pipeline_job_status`: the jobs with capitalised states,
      ordered by stage id. */
  function PipelineJobStatus(jobs: seq<Job>): (r: seq<JobState>)
    ensures ByStage(r) && multiset(r) == multiset(ToStates(jobs))
  {
    SortByStage(ToStates(jobs))
  }

  /** The listing holds each job once, as its stage id, name and
      capitalised status, in stage order. */
  lemma PipelineJobStatusMeaning(jobs: seq<Job>)
    ensures ByStage(PipelineJobStatus(jobs))
    ensures multiset(PipelineJobStatus(jobs)) == multiset(ToStates(jobs))
    ensures |PipelineJobStatus(jobs)| == |jobs|
    ensures forall s :: s in PipelineJobStatus(jobs) <==>
              exists k :: 0 <= k < |jobs| && s == JobState(jobs[k].id, jobs[k].name, Capitalize(jobs[k].status))
  {
    var r := PipelineJobStatus(jobs);
    assert |multiset(r)| == |multiset(ToStates(jobs))|;
    forall s ensures s in r <==> s in ToStates(jobs) {
      assert s in r <==> s in multiset(r);
    }
  }

  /** The request that writes the pipeline file: the HTTP method, the file it
      names and the parameters passed on to GitLab. */
  datatype CiRequest = CiRequest(httpMethod: string, filePath: string, branch: string, startBranch: string,
                                 encoding: string, content: string, authorEmail: string, authorName: string,
                                 commitMessage: string)

  const BothFiles := DevOps(400, "Has both .yaml and .yml files")
  const NoFilePath := Crash("KeyError: 'file_path'")

  const YamlFile := ".rancher-pipeline.yaml"
  const YmlFile := ".rancher-pipeline.yml"

  /** What GitLab answers when one pipeline file is read: the file, a 404, or
      another DevOpsError, which is caught but leaves the file's flag unset. */
  datatype Probe = Found | NotFound | OtherError

  /** What `_get_rancher_pipeline_yaml` leaves behind: the two "can not find"
      flags and the `file_path` it stores in the request parameters, which a
      successful read of the .yml file overwrites. */
  datatype Lookup = Lookup(yamlMissing: bool, ymlMissing: bool, filePath: Option<string>)

  function RancherPipelineYaml(yaml: Probe, yml: Probe): Lookup {
    Lookup(yaml == NotFound, yml == NotFound,
           if yml == Found then Some(YmlFile) else if yaml == Found then Some(YamlFile) else None)
  }

  /** `generate_ci_yaml` up to the request it sends. Both files missing chooses
      a post and one missing a put; otherwise it raises "Has both". The
      request is built from `file_path`, which only a file that was found
      sets, so a missing key raises KeyError before anything is sent.
      `content` is the base64 text of the YAML. */
  function GenerateCiYaml(branchName: string, content: string, yaml: Probe, yml: Probe): (r: Result<CiRequest>)
    ensures r == Err(BothFiles) <==> yaml != NotFound && yml != NotFound
    ensures r.Ok? ==> r.value.filePath == YamlFile || r.value.filePath == YmlFile
  {
    var found := RancherPipelineYaml(yaml, yml);
    var req := CiRequest("", "", branchName, branchName, "base64", content,
                         "system@iiidevops.org.tw", "iiidevops", "");
    var chosen :=
      if found.yamlMissing && found.ymlMissing then Ok(req.(httpMethod := "post", commitMessage := "add .rancher-pipeline"))
      else if found.yamlMissing || found.ymlMissing then Ok(req.(httpMethod := "put", commitMessage := "modify .rancher-pipeline"))
      else Err(BothFiles);
    match chosen
    case Err(e) => Err(e)
    case Ok(q) =>
      if found.filePath.None? then Err(NoFilePath) else Ok(q.(filePath := found.filePath.value))
  }

  /** Neither file reported missing raises "Has both"; a missing file beside
      one that was found updates the found one with a put on the branch; a
      missing file beside one that failed otherwise, and in particular both
      files missing, raises KeyError, so the post is never sent. */
  lemma GenerateCiYamlMeaning(branchName: string, content: string, yaml: Probe, yml: Probe)
    ensures var r := GenerateCiYaml(branchName, content, yaml, yml);
            (r == Err(BothFiles) <==> yaml != NotFound && yml != NotFound) &&
            (r.Ok? <==> (yaml == NotFound && yml == Found) || (yaml == Found && yml == NotFound)) &&
            (r == Err(NoFilePath) <==> (yaml == NotFound || yml == NotFound) && yaml != Found && yml != Found) &&
            (r.Ok? ==> r.value.httpMethod == "put" && r.value.commitMessage == "modify .rancher-pipeline" &&
                       r.value.filePath == (if yml == Found then YmlFile else YamlFile) &&
                       r.value.branch == branchName && r.value.startBranch == branchName &&
                       r.value.content == content && r.value.encoding == "base64")
  {
  }

  /** As written, creating the file fails: with both files missing the
      request has no `file_path`. */
  lemma CreateRaisesKeyError(branchName: string, content: string)
    ensures GenerateCiYaml(branchName, content, NotFound, NotFound) == Err(NoFilePath)
  {
  }

  /** An entry of `get_phase_yaml`. */
  datatype Phase = Phase(id: int, phase: Option<string>, software: string)

  /** The phase a stage name gives: the text before its first "--". */
  function PhaseOf(name: string): (r: Option<string>)
    ensures r.Some? <==> IndexOf(name, "--").Some?
  {
    match IndexOf(name, "--")
    case None => None
    case Some(i) => Some(Split(name, "--")[0])
  }

  /** The software a stage name gives: the text between the first and the
      second "--", or the whole name without "--". */
  function SoftwareOf(name: string): string {
    match IndexOf(name, "--")
    case None => name
    case Some(i) => Split(name, "--")[1]
  }

  /** The phase in force at a stage: that of the last stage up to it whose
      name has "--"; a stage without one keeps the phase before it. */
  function PhaseAt(names: seq<string>): Option<string> {
    if names == [] then None
    else
      var last := names[|names| - 1];
      if IndexOf(last, "--").Some? then PhaseOf(last) else PhaseAt(names[..|names| - 1])
  }

  function Phases(names: seq<string>): (r: seq<Phase>)
    ensures |r| == |names|
  {
    seq(|names|, k requires 0 <= k < |names| => Phase(k + 1, PhaseAt(names[..k + 1]), SoftwareOf(names[k])))
  }

  const NoYamlData := Crash("TypeError: 'NoneType' object is not subscriptable")

  /** The stages of the file `_get_rancher_pipeline_yaml` read last: the .yml
      file when it was found, else the .yaml file when it was, else none
      (`get_yaml_data` stays None). */
  function ReadStages(yaml: Probe, yml: Probe, yamlStages: seq<string>, ymlStages: seq<string>)
    : (r: Option<seq<string>>)
    ensures r.None? <==> yaml != Found && yml != Found
  {
    if yml == Found then Some(ymlStages) else if yaml == Found then Some(yamlStages) else None
  }

  /** `get_phase_yaml`. `yamlStages` and `ymlStages` are the stage names of
      the two files as GitLab would return them. Both files missing answers
      204 (`Ok(None)`); a missing file beside one whose read failed otherwise,
      or two failed reads, leaves no data, and reading its content raises
      TypeError; otherwise one entry per stage of the file read last,
      numbered from 1. */
  method GetPhaseYaml(yaml: Probe, yml: Probe, yamlStages: seq<string>, ymlStages: seq<string>)
    returns (r: Result<Option<seq<Phase>>>)
    ensures yaml == NotFound && yml == NotFound ==> r == Ok(None)
    ensures r == Err(NoYamlData) <==> !(yaml == NotFound && yml == NotFound) && yaml != Found && yml != Found
    ensures yml == Found ==> r == Ok(Some(Phases(ymlStages)))
    ensures yaml == Found && yml != Found ==> r == Ok(Some(Phases(yamlStages)))
  {
    if yaml == NotFound && yml == NotFound {
      return Ok(None);
    }
    var data := ReadStages(yaml, yml, yamlStages, ymlStages);
    if data.None? {
      return Err(NoYamlData);
    }
    var stageNames := data.value;
    var phases: seq<Phase> := [];
    var phaseName: Option<string> := None;
    for index := 0 to |stageNames|
      invariant |phases| == index && phaseName == PhaseAt(stageNames[..index])
      invariant forall k :: 0 <= k < index ==> phases[k] == Phases(stageNames)[k]
    {
      var name := stageNames[index];
      assert stageNames[..index + 1][..index] == stageNames[..index];
      var softName: string;
      if IndexOf(name, "--").Some? {
        var cutList := Split(name, "--");
        phaseName := Some(cutList[0]);
        softName := cutList[1];
      } else {
        softName := name;
      }
      phases := phases + [Phase(index + 1, phaseName, softName)];
    }
    assert phases == Phases(stageNames);
    return Ok(Some(phases));
  }

  /** A name with "--" splits into a phase, "--" and the software part,
      which the rest of the name follows. */
  lemma PhaseSoftwareSplit(name: string)
    requires IndexOf(name, "--").Some?
    ensures StartsWith(name, PhaseOf(name).value + "--" + SoftwareOf(name))
  {
    var i := IndexOf(name, "--").value;
    var rest := name[i + 2..];
    IndexOfMeaning(name, "--");
    assert Split(name, "--") == [name[..i]] + Split(rest, "--");
    assert name[i..i + 2] == "--";
    SplitHead(rest);
    var s := Split(rest, "--")[0];
    assert name[..i + 2 + |s|] == name[..i] + "--" + s by {
      assert name[..i + 2 + |s|] == name[..i] + name[i..i + 2] + rest[..|s|];
    }
  }

  /** The first part of a split is a prefix of the text. */
  lemma SplitHead(s: string)
    ensures StartsWith(s, Split(s, "--")[0])
  {
  }

  /** The phase holds no "--". */
  lemma PhaseHasNoSeparator(name: string)
    requires IndexOf(name, "--").Some?
    ensures forall j :: 0 <= j <= |PhaseOf(name).value| - 2 ==> !OccursAt(PhaseOf(name).value, "--", j)
  {
    var i := IndexOf(name, "--").value;
    IndexOfMeaning(name, "--");
    assert Split(name, "--") == [name[..i]] + Split(name[i + 2..], "--");
    forall j | 0 <= j && j + 2 <= i ensures !OccursAt(name[..i], "--", j) {
      assert !OccursAt(name, "--", j);
      assert name[..i][j..j + 2] == name[j..j + 2];
    }
  }

  /** A stage without "--" keeps the phase of the one before it. */
  lemma PhaseCarried(names: seq<string>, k: nat)
    requires 0 < k < |names| && IndexOf(names[k], "--").None?
    ensures Phases(names)[k].phase == Phases(names)[k - 1].phase
    ensures Phases(names)[k].software == names[k]
  {
    assert names[..k + 1][..k] == names[..k];
  }
}
