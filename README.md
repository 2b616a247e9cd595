# devops-api core, modelled in Dafny

This project models the sequential logic in the Python/Flask back end of
the III DevOps platform (`devops-api/apis`), and proves properties of that
model. The back end sits between a web UI and Redmine, GitLab, SonarQube,
an SQL database and Redis. Most of its code passes requests along, but
some of it makes decisions that can be stated and checked:

- name codecs and validators: the reversible Kubernetes service-account
  name encoding, API and migration version strings, template tag ranges,
  logins and passwords, project fields, notification parameters and the
  ORM `@validates` hooks;
- pagination arithmetic, the GitLab start-to-page conversion and the
  200-id Redmine filter chunks;
- the Redis issue-family hash (parent id to comma-separated child ids)
  and the per-project issue counters;
- the database tables the core edits in place: starred projects, locks,
  issue display fields, tags, upload file types, user roles, notification
  messages;
- the UI route table, a singly linked list of siblings encoded by
  `parent` and `old_brother` ids, with its navigation, insertion,
  deletion, renaming and move-to-index operations;
- decision rules: role gates, project owner changes, the "needs a parent
  issue" tracker rule, the merge check on protected branches, Redmine
  release readiness, starred-first project order and the post/put choice
  for the pipeline yaml.

There is one Dafny module per Python file. `Wrappers` holds
`Option`/`Result`/`Outcome` and the error kinds (`DevOps(status, msg)`,
`NotAllowed`, `ValueErr`, `AssertionErr` and `Crash` for Python runtime
errors such as `KeyError` or `AttributeError` on `None`). `Strs`, `PyList`,
`PyMath` and `StrOrder` model the Python built-ins that the core relies on
(`split`/`join`/`replace`, `list.remove`, floor division and slicing,
`sorted`). A table or hash that the source updates in place is a class
field (`seq` of rows, or `map`). Each method of that class is proved equal
to a specification function on the old state, and the lemmas state what
the source promises about that function. A query's `.first()` is the
first matching row in table order. Replies from Redmine, GitLab and the
other services, and the values read from configuration and the clock, are
parameters.

## Model

| member | source | states |
|---|---|---|
| Api.Check | devops-api/apis/api.py:204-212 | returns its argument unchanged or raises the 400 "api_version is not valid" error, and "develop" in any letter case always passes |
| Api.DottedDigitsGroups | devops-api/apis/api.py:207 | the hand-written scanner accepts exactly the non-empty digit groups separated by single dots |
| Api.CheckAccepts | devops-api/apis/api.py:204-212 | the setter returns the string exactly when it is an optional 'V'/'v' plus dotted digit groups (optionally followed by one trailing newline, as Python's `$` allows) or "develop" in any letter case, and raises 400 otherwise |
| Api.CheckRefuses | devops-api/apis/api.py:207-210 | "", "1.", ".1", "1..2" and "x1" are refused with the 400 error |
| Api.CheckAcceptsExamples | devops-api/apis/api.py:207-212 | "v1.22.0" and "DEVELOP" are returned unchanged |
| Lock.FirstNamed | devops-api/apis/resources/lock.py:8 | `filter_by(name).first()`: none exactly when no row has the name, otherwise the first row index that has it |
| Lock.StatusAfterUpdate | devops-api/apis/resources/lock.py:7-24 | reading a lock after updating it gives the new flag, the new date when one was given and the old date otherwise; an unknown name stays unknown |
| Lock.UpdateIsolated | devops-api/apis/resources/lock.py:18-24 | updating one lock leaves what every other name reads unchanged |
| Lock.LockTable.GetLockStatus | devops-api/apis/resources/lock.py:7-15 | an empty reply exactly when no row has the name, otherwise a row of the table with that name (the first one) |
| Lock.LockStatus | devops-api/apis/resources/lock.py:7-15 | none exactly when no row has the name; otherwise a row of the table with that name |
| Lock.LockTable.UpdateLockStatus | devops-api/apis/resources/lock.py:18-24 | the new table is the old one with the first row of that name updated (flag always, date only when given) |
| IssueDisplayField.FirstRow | devops-api/apis/resources/issue_display_field.py:16 | none exactly when no row has that user, project and type, otherwise the first such row |
| IssueDisplayField.Created | devops-api/apis/resources/issue_display_field.py:9-12 | fails, changing nothing, exactly for an unknown field type; otherwise the row is appended |
| IssueDisplayField.GetField | devops-api/apis/resources/issue_display_field.py:15-21 | an existing entry is returned with nothing changed; a failure changes nothing and means an unknown type; at most one row is appended |
| IssueDisplayField.PutField | devops-api/apis/resources/issue_display_field.py:24-31 | a success returns the given columns; a failure changes nothing and means an unknown type; an existing entry is updated without adding rows |
| IssueDisplayField.GetFieldEffect | devops-api/apis/resources/issue_display_field.py:15-21 | a missing entry is created with the five default columns and those are returned; an existing one is returned with nothing changed; on valid rows only an unknown field type fails, and validity is kept |
| IssueDisplayField.GetFieldStable | devops-api/apis/resources/issue_display_field.py:15-21 | a second read returns what the first did and changes nothing more |
| IssueDisplayField.PutThenGet | devops-api/apis/resources/issue_display_field.py:15-31 | put returns the columns it was given and a following get reads them back |
| IssueDisplayField.PutIsolated | devops-api/apis/resources/issue_display_field.py:24-31 | putting one entry leaves every other user, project and type reading what it did |
| IssueDisplayField.FieldTable.Create | devops-api/apis/resources/issue_display_field.py:9-12 | the table and reply are those of `Created`: one row appended, refused when the type is not a known field type |
| IssueDisplayField.FieldTable.GetIssueDisplayField | devops-api/apis/resources/issue_display_field.py:15-21 | table and reply equal `GetField` of the old table (whose meaning GetFieldEffect states) |
| IssueDisplayField.FieldTable.PutIssueDisplayField | devops-api/apis/resources/issue_display_field.py:24-31 | table and reply equal `PutField` of the old table (whose meaning PutThenGet and PutIsolated state) |
| StarredProject.StarSetEffect | devops-api/apis/resources/starred_project.py:11-25 | starring a starred project changes nothing; it fails exactly when the pair is new and the user already has ten stars; otherwise the pair is appended |
| StarredProject.StarSet | devops-api/apis/resources/starred_project.py:11-25 | on success the pair is starred; it fails exactly when the pair is new and the user already has ten stars |
| StarredProject.StarSetIdempotent | devops-api/apis/resources/starred_project.py:11-25 | starring twice is starring once |
| StarredProject.StarSetKeeps | devops-api/apis/resources/starred_project.py:16-25 | starring keeps every user at ten stars or fewer and no pair stored twice |
| StarredProject.DistinctSplice | devops-api/apis/resources/starred_project.py:29-33 | deleting one row of a table without repeated pairs leaves no copy of that row |
| StarredProject.StarUnsetEffect | devops-api/apis/resources/starred_project.py:28-34 | unstarring removes exactly that pair (as a multiset), is a no-op when it is absent, and leaves no copy of it |
| StarredProject.StarUnset | devops-api/apis/resources/starred_project.py:28-34 | an absent pair changes nothing; a present one removes one row |
| StarredProject.StarUnsetCapped | devops-api/apis/resources/starred_project.py:28-34 | unstarring keeps every user at ten stars or fewer |
| StarredProject.StarTable.SpjSet | devops-api/apis/resources/starred_project.py:11-25 | on success the table becomes `StarSet` of the old one; on the limit error the table is unchanged and that error is returned |
| StarredProject.StarTable.SpjUnset | devops-api/apis/resources/starred_project.py:28-34 | the table becomes `StarUnset` of the old one |
| System.VerifyUserCanMerge | devops-api/apis/resources/system.py:32-42 | no protected branches allows the merge; otherwise the reply is the scan over the branches in order |
| System.MergeScanMeaning | devops-api/apis/resources/system.py:33-40 | the scan allows exactly when some branch named like the target admits the member's access level and no earlier branch of that name has an empty level list (which crashes); when no branch has the target's name the merge is refused |
| System.MergeScan | devops-api/apis/resources/system.py:33-40 | no branch named like the target gives false; true only when some branch of that name admits the access level |
| System.UnprotectedTargetRefused | devops-api/apis/resources/system.py:33-40 | once any branch is protected, a merge into a branch that is not protected is refused |
| System.MergeScanMonotone | devops-api/apis/resources/system.py:36-37 | a higher access level never loses a merge permission a lower one has |
| NotificationView.TypeCheck | devops-api/apis/urls/notification_message/view.py:35-57 | one type id passes exactly when it is between 1 and 5, has parameters when it is 2 to 5, and those hold the key its type needs; out-of-range ids and missing parameters raise their own errors |
| NotificationView.ParameterCheck | devops-api/apis/urls/notification_message/view.py:28-34 | an absent alert level or one outside the seven known levels raises "alert_level not in range" |
| NotificationView.TypesCheckFirst | devops-api/apis/urls/notification_message/view.py:35-57 | the loop passes exactly when every id passes, and otherwise raises the error of the first failing id |
| NotificationView.ParameterCheckMeaning | devops-api/apis/urls/notification_message/view.py:28-57 | a message is accepted exactly when its level is known and every type id is 1 to 5 with the parameters its type needs |
| NotificationView.BroadcastNeedsNoParameters | devops-api/apis/urls/notification_message/view.py:35-38 | a message to everybody (type 1 only) needs no type_parameters |
| NotificationView.MissingParametersRefused | devops-api/apis/urls/notification_message/view.py:38-39 | a type 2 to 5 without parameters is refused with "Missing type_parameters" |
| Version.KeyLessTransitive | devops-api/apis/resources/version.py:52-63 | Python's ordering of (due date, update time) keys is transitive |
| Version.KeyLessAsymmetric | devops-api/apis/resources/version.py:52-63 | that ordering is asymmetric |
| Version.KeyLessTotal | devops-api/apis/resources/version.py:52-63 | any two different keys are ordered one way or the other |
| Version.KeyNotLessTransitive | devops-api/apis/resources/version.py:52-63 | "not below" is transitive too, which sorting needs |
| Version.Insert | devops-api/apis/resources/version.py:52 | inserting adds exactly that version to the multiset of versions |
| Version.SortedCons | devops-api/apis/resources/version.py:52 | a version no later than every version of a sorted list can go in front of it |
| Version.InsertSorted | devops-api/apis/resources/version.py:52 | inserting into a list sorted by key keeps it sorted |
| Version.SortByDate | devops-api/apis/resources/version.py:52-63 | `sort(key=__compare_date_string)` returns a permutation of its input in ascending key order |
| Version.MissingDueDateFirst | devops-api/apis/resources/version.py:56-63 | a version without a due_date key (key "") sorts before one with a non-empty date |
| Version.NullDueDateAfterDated | devops-api/apis/resources/version.py:56-63 | a version whose due_date is None (key "Z") sorts after one dated with a leading digit |
| Version.Filtered | devops-api/apis/resources/version.py:45-50 | a version is kept exactly when its id is among the force ids or its status among the requested ones |
| Version.VersionListMeaning | devops-api/apis/resources/version.py:38-53 | for a real project the list is sorted by key; without a status it holds the fetched versions and count; with one, total_count is the filtered length and a version is listed exactly when it was fetched and is forced or has a requested status |
| Version.ForcedKept | devops-api/apis/resources/version.py:39-50 | a version whose id is among the force ids survives any status filter |
| Version.CheckVersionName | devops-api/apis/resources/version.py:66-83 | without a plan project it answers "not found"; otherwise it refuses exactly when some existing version has the requested name, only with "Project_version name is exist" |
| Version.VersionListOf | devops-api/apis/resources/version.py:17-53 | a dummy project answers an already built success envelope with no versions; a project without a plan project an already built 404 "not found"; any other project the version list itself |
| Tag.RowToDict | devops-api/apis/resources/tag.py:13-22 | None for None; otherwise the id and name of the row |
| Tag.RowToDictIgnoresProject | devops-api/apis/resources/tag.py:17-19 | the project_id column does not appear in the dictionary |
| Tag.TagsDictMeaning | devops-api/apis/resources/tag.py:25-37 | the dictionary's keys are exactly the ids of the selected tags (all, one project or a list of projects), each mapped to its id and name; any other argument gives {} |
| Tag.NothingSelected | devops-api/apis/resources/tag.py:33-34 | a project argument that is neither None, an int nor a list gives {} |
| Tag.TagStore.GetTagsForDict | devops-api/apis/resources/tag.py:25-37 | the loop builds exactly the dictionary `TagsDict` (whose meaning TagsDictMeaning states) |
| Tag.TagStore.CreateTags | devops-api/apis/resources/tag.py:66-72 | no name inserts nothing and returns None; otherwise one tag with the next id is appended and that id returned; issue tags are untouched |
| Tag.Without | devops-api/apis/resources/tag.py:83 | the remaining tags are exactly those whose id differs |
| Tag.WithoutUnique | devops-api/apis/resources/tag.py:83 | deleting keeps tag ids unique and keeps only rows that were there |
| Tag.Stripped | devops-api/apis/resources/tag.py:86-98 | every issue row is rewritten by itself, in order |
| Tag.Strip | devops-api/apis/resources/tag.py:88-98 | the issue keeps its id; a list without the tag is untouched; a list with it loses one entry |
| Tag.StrippedMeaning | devops-api/apis/resources/tag.py:88-98 | each issue keeps its id; a list without the tag is untouched; a list with it loses exactly its first occurrence |
| Tag.StrippedUnique | devops-api/apis/resources/tag.py:86-98 | rewriting keeps issue ids unique |
| Tag.Holding | devops-api/apis/resources/tag.py:88-92 | the increasing indices of exactly the issue rows holding the tag |
| Tag.Pending | devops-api/apis/resources/tag.py:87-92 | the mapping gives, for each row holding the tag in order, its issue id and its list without the first occurrence |
| Tag.IssueIndex | devops-api/apis/resources/tag.py:96 | `IssueTag.query.get(issue_id)` finds a row with that issue id |
| Tag.CollectMapping | devops-api/apis/resources/tag.py:86-92 | the first loop builds exactly `Pending` |
| Tag.WriteBack | devops-api/apis/resources/tag.py:94-98 | the second loop, writing each mapped list back to its issue row, yields exactly `Stripped` of the rows |
| Tag.RewriteStep | devops-api/apis/resources/tag.py:95-97 | each write-back finds the row whose turn it is and keeps the partial-rewrite invariant |
| Tag.RewriteDone | devops-api/apis/resources/tag.py:94-98 | once every mapped row is written the table is `Stripped` |
| Tag.TagStore.DeleteTag | devops-api/apis/resources/tag.py:82-100 | the tag rows become `Without` the id, the issue tag rows `Stripped` of it, the id is returned, and the store stays valid |
| Pipeline.ToStates | devops-api/apis/resources/pipeline.py:63-68 | one state per job, in job order, holding its id, name and capitalised status |
| Pipeline.Insert | devops-api/apis/resources/pipeline.py:69 | inserting adds exactly that state to the multiset |
| Pipeline.InsertByStage | devops-api/apis/resources/pipeline.py:69 | inserting into a list ordered by stage_id keeps it ordered |
| Pipeline.SortByStage | devops-api/apis/resources/pipeline.py:69 | `sorted(key=stage_id)` returns a permutation ordered by ascending stage_id |
| Pipeline.PipelineJobStatusMeaning | devops-api/apis/resources/pipeline.py:61-69 | the reply is ordered by stage_id, is a permutation of the jobs' states, has one entry per job and lists exactly the jobs with their status capitalised |
| Pipeline.PipelineJobStatus | devops-api/apis/resources/pipeline.py:61-69 | the reply is ordered by stage_id and, as a multiset, is one state per job |
| Pipeline.GenerateCiYamlMeaning | devops-api/apis/resources/pipeline.py:320-345 | both files reported present (neither a 404) raises 400 "Has both .yaml and .yml files"; one missing and the other found puts to the found file ("modify .rancher-pipeline"), with the given branch, start branch, base64 content; a 404 with no file found (both missing, or one missing and the other read failing) raises KeyError on `file_path`, so nothing is posted |
| Pipeline.GenerateCiYaml | devops-api/apis/resources/pipeline.py:320-345 | raises "Has both" exactly when neither file was reported missing; a request that is sent names one of the two pipeline files |
| Pipeline.CreateRaisesKeyError | devops-api/apis/resources/pipeline.py:392-401 | with both files missing, `file_path` is never stored and the create raises KeyError instead of posting |
| Pipeline.PhaseOf | devops-api/apis/resources/pipeline.py:375-378 | a stage name yields a phase exactly when it contains "--" |
| Pipeline.Phases | devops-api/apis/resources/pipeline.py:373-382 | one entry per stage |
| Pipeline.GetPhaseYaml | devops-api/apis/resources/pipeline.py:362-383 | both files a 404 answers 204 (`Ok(None)`); no file found otherwise (a 404 beside a failed read, or two failed reads) leaves `get_yaml_data` None and raises TypeError, exactly then; otherwise the loop yields exactly `Phases` of the stages of the file read last, the .yml one when it was found |
| Pipeline.ReadStages | devops-api/apis/resources/pipeline.py:386-401 | no data exactly when neither file was found; the .yml file, read second, wins |
| Pipeline.PhaseSoftwareSplit | devops-api/apis/resources/pipeline.py:375-378 | a name with "--" starts with its phase, "--" and its software |
| Pipeline.PhaseHasNoSeparator | devops-api/apis/resources/pipeline.py:376-377 | the phase is the text before the first "--" and contains no "--" |
| Pipeline.PhaseCarried | devops-api/apis/resources/pipeline.py:379-381 | a stage without "--" inherits the previous stage's phase and its whole name is the software |
| Gitlab.CommitIdToUrl | devops-api/apis/resources/gitlab.py:86-87 | the repository URL without its last four characters, then "/-/commit/" and the id |
| Gitlab.CommitUrlOfGitUrl | devops-api/apis/resources/gitlab.py:86-87 | for a URL ending in ".git" exactly that suffix is replaced |
| Gitlab.IsTagExist | devops-api/apis/resources/gitlab.py:470-488 | true exactly when some returned tag name equals the pattern |
| Gitlab.KeptMeaning | devops-api/apis/resources/gitlab.py:543-547 | the filter keeps exactly the commits that pass, never more than it was given, and all of them when all pass |
| Gitlab.KeptConcat | devops-api/apis/resources/gitlab.py:543-547 | filtering distributes over concatenation, so kept commits stay in their order |
| Gitlab.CommitsByAuthor | devops-api/apis/resources/gitlab.py:539-547 | no filter returns every commit; with one, the loop keeps in order exactly the commits whose author differs from it |
| Gitlab.CommitsByMembers | devops-api/apis/resources/gitlab.py:553-566 | the loop keeps in order exactly the commits neither authored nor committed by Administrator or the project manager bot |
| Gitlab.BotCommitsDropped | devops-api/apis/resources/gitlab.py:559-562 | a commit whose author name starts with "專案管理機器人" is dropped |
| Gitlab.FileName | devops-api/apis/resources/gitlab.py:813-814 | `Path(p).stem + Path(p).suffix`, pathlib's name: trailing '/' and "." components are dropped; the result holds no '/', is never ".", and is no longer than the path |
| Gitlab.LastComponent | devops-api/apis/resources/gitlab.py:813-814 | the text after the last '/', a suffix of the path holding no '/' |
| Gitlab.TrimSlashes | devops-api/apis/resources/gitlab.py:813-814 | a prefix of the path that does not end in '/' |
| Gitlab.LastComponentAfter | devops-api/apis/resources/gitlab.py:813-814 | after a '/' the last component is the text that follows |
| Gitlab.FileNameOfName | devops-api/apis/resources/gitlab.py:813-814 | a plain file name, alone or after a directory, is its own name |
| Gitlab.FileNameSlash | devops-api/apis/resources/gitlab.py:813-814 | a trailing '/' does not change the name ("docs/a.txt/" names "a.txt") |
| Gitlab.FileNameDot | devops-api/apis/resources/gitlab.py:813-814 | a trailing "/." does not change the name ("a/b/." names "b") |
| Gitlab.CreateMultipleFileCommit | devops-api/apis/resources/gitlab.py:789-824 | the loop builds exactly `MultipleFileCommit` (whose meaning MultipleFileCommitMeaning states) |
| Gitlab.LinesStep | devops-api/apis/resources/gitlab.py:814 | each file adds its own line after those of the files before it |
| Gitlab.CompleteStep | devops-api/apis/resources/gitlab.py:806-812 | a complete file extends a complete prefix |
| Gitlab.LinesInOrder | devops-api/apis/resources/gitlab.py:805-814 | the fallback message starts with the lines of files 0..k, in file order |
| Gitlab.MultipleFileCommitMeaning | devops-api/apis/resources/gitlab.py:805-824 | it raises 400 exactly when some file lacks a truthy action, path or content; otherwise the actions are the files, the branch is the given one when truthy, and the message is the given one when truthy and the fallback list otherwise |
| Gitlab.StartConvertPage | devops-api/apis/resources/gitlab.py:877-879 | a zero limit is a division error and nothing else is |
| Gitlab.StartConvertPageHolds | devops-api/apis/resources/gitlab.py:877-879 | for start ≥ 0 and limit > 0 the page is the 1-based page holding item `start` |
| Gitlab.PipelineJobsStatus | devops-api/apis/resources/gitlab.py:917-932 | total is the number of jobs and success the number with status "success"; asking for the commit message of an empty job list crashes, otherwise it is the first job's title |
| Gitlab.CountSuccessBounds | devops-api/apis/resources/gitlab.py:920 | success ≤ total, with equality exactly when every job succeeded and zero exactly when none did |
| Gitlab.DigitRun | devops-api/apis/resources/gitlab.py:1063 | the length of the longest digit prefix |
| Gitlab.HashNumbers | devops-api/apis/resources/gitlab.py:1063-1064 | `#(\d+)` matches are non-empty digit strings |
| Gitlab.HashNumbersNone | devops-api/apis/resources/gitlab.py:1063-1064 | a title without '#' mentions no issue |
| Gitlab.HashNumbersLead | devops-api/apis/resources/gitlab.py:1063-1064 | "#" and a digit run yields that run, then the matches of the rest |
| Gitlab.DigitRunOf | devops-api/apis/resources/gitlab.py:1063 | the digit run of digits followed by a non-digit is exactly those digits |
| Gitlab.KnownNumbersAreIssues | devops-api/apis/resources/gitlab.py:1065 | the numbers kept are ids of the project's issues |
| Gitlab.CommitIssueIdsAreIssues | devops-api/apis/resources/gitlab.py:1063-1065 | every issue id read off a commit title is an id of the project's issues |
| NotificationMessage.AlertIdsDistinct | devops-api/apis/resources/notification_message.py:39-54 | the eight alert levels have distinct ids, so a lookup has one answer |
| NotificationMessage.GetAlertLevel | devops-api/apis/resources/notification_message.py:57-61 | "Unknown Alert" exactly when no level has the id; otherwise that level's id and name |
| NotificationMessage.GetUsersCanRead | devops-api/apis/resources/notification_message.py:64-67 | None exactly for unknown ids, otherwise the level's flag |
| NotificationMessage.UsersCanReadLevels | devops-api/apis/resources/notification_message.py:39-54 | ordinary users may read levels 1, 2, 3, 103 and 201 and no others |
| NotificationMessage.AddIfAny | devops-api/apis/resources/notification_message.py:182-193 | an inner loop of types 2 to 4 adds the row once when some listed id is wanted, and otherwise leaves the list alone |
| NotificationMessage.AppendOwned | devops-api/apis/resources/notification_message.py:194-198 | the type-5 loop computes exactly `OwnedAppends` |
| NotificationMessage.OwnedAppendsRows | devops-api/apis/resources/notification_message.py:194-198 | the type-5 loop fails exactly when some listed project does not exist; otherwise it adds the row when the viewer owns one of the projects |
| NotificationMessage.PrefixRaises | devops-api/apis/resources/notification_message.py:196-197 | a missing project makes the whole type-5 loop fail |
| NotificationMessage.FilterByUser | devops-api/apis/resources/notification_message.py:170-199 | the nested loops compute exactly `FilterRows` |
| NotificationMessage.FilterRaisesLater | devops-api/apis/resources/notification_message.py:178-198 | once a row raises, the whole filter raises the same error |
| NotificationMessage.FilterByUserDuplicates | devops-api/apis/resources/notification_message.py:194-198 | as written, a type-5 row listing two projects of the same owner is returned twice |
| NotificationMessage.AddOnceKeeps | devops-api/apis/resources/notification_message.py:180-193 | the `row not in out_list` guard keeps the list free of duplicates and adds exactly that row |
| NotificationMessage.StepFixedMeaning | devops-api/apis/resources/notification_message.py:178-198 | with the duplicate guard on every branch, one row fails exactly when it raises, and otherwise is added once exactly when it is visible |
| NotificationMessage.FilterRowsFixedMeaning | devops-api/apis/resources/notification_message.py:170-199 | with the guard, the filter fails exactly when some row raises; otherwise it has no duplicates and holds exactly the visible rows (type 1; a listed member project; the user id; a truthy listed role; an owned project) |
| NotificationMessage.StepSameRows | devops-api/apis/resources/notification_message.py:178-198 | on lists with the same members, a step as written and a guarded step agree on success and members |
| NotificationMessage.FilterRowsSameRows | devops-api/apis/resources/notification_message.py:170-199 | the filter as written and the guarded one agree on success and on which rows they list; they differ only in repeats |
| NotificationMessage.UnreadWithTitle | devops-api/apis/resources/notification_message.py:397-413 | exactly the open messages with that title that no administrator has read |
| NotificationMessage.SuppressedMeaning | devops-api/apis/resources/notification_message.py:263-265 | creation is skipped exactly for levels 102 and 301 while an unread open message with the same title exists |
| NotificationMessage.RecipientRows | devops-api/apis/resources/notification_message.py:280-286 | one recipient row per type id, in order, each with the message id and the parameters |
| NotificationMessage.MessageStore.CreateNotificationMessage | devops-api/apis/resources/notification_message.py:260-287 | a suppressed message changes nothing; otherwise one open message with the next id and its recipient rows are appended |
| TestGeneratedIssue.IssueSubject | devops-api/apis/resources/test_generated_issue.py:143-161 | an unknown tool is a KeyError; otherwise "[Title] Script: " + the file name ("postman_collection", or "{filename}.postman_collection", for postman) + "_測試失敗" |
| TestGeneratedIssue.PostmanFullFileNameInjective | devops-api/apis/resources/test_generated_issue.py:154-158 | different postman file names give different full names |
| TestGeneratedIssue.IssueSubjectInjective | devops-api/apis/resources/test_generated_issue.py:153-161 | for one tool, different file names give different subjects |
| TestGeneratedIssue.CheckPostmanExecutionStatus | devops-api/apis/resources/test_generated_issue.py:210-223 | the loop returns exactly `ExecutionStatus` |
| TestGeneratedIssue.FailedStep | devops-api/apis/resources/test_generated_issue.py:218-222 | a failed assertion adds its text to the failure list and a passing one adds nothing |
| TestGeneratedIssue.LineStep | devops-api/apis/resources/test_generated_issue.py:220 | appending a case line is numbering one more failure |
| TestGeneratedIssue.NumberedAppend | devops-api/apis/resources/test_generated_issue.py:220-222 | the last failure's line carries the next case number |
| TestGeneratedIssue.NumberedInOrder | devops-api/apis/resources/test_generated_issue.py:216-222 | the k-th failure's "Case n:k+1." line follows those of the failures before it |
| TestGeneratedIssue.FailedTextsMeaning | devops-api/apis/resources/test_generated_issue.py:218-222 | no more failures than assertions, none exactly when no assertion has an error message, and every failed assertion is listed |
| TestGeneratedIssue.ExecutionStatusMeaning | devops-api/apis/resources/test_generated_issue.py:210-223 | no assertions gives (True, ""); the status is true exactly when no assertion has an error message; a passing run's line is the "{n}-{name}" header alone and a failing one starts with it and the line of the first failure |
| TestGeneratedIssue.ExecutionStatus | devops-api/apis/resources/test_generated_issue.py:210-223 | passes exactly when no assertion failed; no assertions give an empty message |
| Project.Keep | devops-api/apis/resources/project.py:231-248 | the starred (or the unstarred) part of the id list, a sub-multiset of it |
| Project.ProjectOrder | devops-api/apis/resources/project.py:248 | the sorted list has as many projects as the query returned |
| Project.KeepSplit | devops-api/apis/resources/project.py:231-248 | the starred and unstarred parts together are the whole list |
| Project.KeepDescending | devops-api/apis/resources/project.py:225-248 | each part keeps the query's descending id order |
| Project.ProjectOrderSorted | devops-api/apis/resources/project.py:225-248 | on the query's descending ids the result is a permutation with starred projects first and each group in descending id order |
| Project.SortedUnique | devops-api/apis/resources/project.py:231-248 | `sort_func` is a strict total order on distinct ids, so the sorted result is the only list with those ids in that order |
| Project.Antisymmetric | devops-api/apis/resources/project.py:231-246 | `sort_func` never puts x before y and y before x |
| Project.SortedHeads | devops-api/apis/resources/project.py:231-248 | two sorted permutations of the same ids start with the same project |
| Project.SortedTail | devops-api/apis/resources/project.py:231-248 | the tail of a sorted list is sorted |
| Project.ProjectRows | devops-api/apis/resources/project.py:248-253 | the total count is always the full number of projects; without both offset and limit every sorted row is returned, with both the Python slice `[offset:offset+limit]` |
| Project.RowsPage | devops-api/apis/resources/project.py:253 | a page that fits holds exactly `limit` rows, the sorted rows from `offset` on |
| Project.ProjectDefaults | devops-api/apis/resources/project.py:259-267 | the name is kept; a missing description becomes "" and a given one is kept; a missing display becomes the name and a given one is kept; a missing or zero owner id becomes the creator, and a nonzero one is kept |
| Project.DefaultsFill | devops-api/apis/resources/project.py:260-267 | a None description becomes "", a None display the name, and a missing or zero owner the creating user |
| Project.ContentCheck | devops-api/apis/resources/project.py:919-928 | a display or description fails exactly when it is truthy and contains '&' or '<' |
| Project.CheckProjectArgsPatterns | devops-api/apis/resources/project.py:916-937 | it raises 400 "Error while creating project." exactly when a truthy display or description contains '&' or '<' |
| Project.NameNeverChecked | devops-api/apis/resources/project.py:929-937 | as written the name never affects the outcome: "Bad Name" breaks the name pattern and still passes |
| Project.FixedCheckMeaning | devops-api/apis/resources/project.py:916-937 | with the name test corrected, the check passes exactly when a truthy name matches the pattern and the content check passes; "Bad Name" is refused |
| Project.CheckProjectOwnerId | devops-api/apis/resources/project.py:940-964 | it passes exactly for an admin, for the owner keeping ownership or handing it to a PM of the project, and for a non-owner leaving the owner unchanged; the refused owner hand-over raises 400 and every other refusal NotAllowedError |
| Project.OwnerChangeGuarded | devops-api/apis/resources/project.py:948-958 | outside admin, the owner can change only when the current owner hands over to a PM of the project |
| ProjectRelation.GetPlanId | devops-api/apis/resources/project_relation.py:10-15 | −1 when no relation row exists for the project, otherwise the plan id of the first one |
| ProjectRelation.GetProjectId | devops-api/apis/resources/project_relation.py:18-23 | −1 when no relation row exists for the plan id, otherwise the project of the first one |
| ProjectRelation.PlanRoundTrip | devops-api/apis/resources/project_relation.py:10-23 | on a one-to-one relation table, `get_project_id(get_plan_id(p)) == p` for every listed project |
| ProjectRelation.ParentOf | devops-api/apis/resources/project_relation.py:31 | none exactly when no link has the project as son; otherwise one link's parent |
| ProjectRelation.Fathers | devops-api/apis/resources/project_relation.py:30-36 | the ancestors nearest-first: empty exactly without a parent, each the parent of the one before, ending at a project without parent |
| ProjectRelation.FathersDistinct | devops-api/apis/resources/project_relation.py:30-36 | on an acyclic relation no ancestor repeats and the project is not its own ancestor |
| ProjectRelation.GetAllFathersProject | devops-api/apis/resources/project_relation.py:30-36 | the recursion appends exactly `Fathers` to the list it is given |
| ProjectRelation.Children | devops-api/apis/resources/project_relation.py:40-41 | exactly the sons linked to the project |
| ProjectRelation.ChildrenBelow | devops-api/apis/resources/project_relation.py:40-44 | on an acyclic relation the children rank below their parent, so the recursion ends |
| ProjectRelation.GetAllSonsProject | devops-api/apis/resources/project_relation.py:39-45 | the recursion appends exactly `Sons` to the list it is given |
| ProjectRelation.SonsClosed | devops-api/apis/resources/project_relation.py:39-45 | the list holds every child of the project and every child of a listed son |
| ProjectRelation.SonsAllClosed | devops-api/apis/resources/project_relation.py:42-44 | the same for the recursion over a level of children |
| ProjectRelation.ParentInWider | devops-api/apis/resources/project_relation.py:42-44 | "the parent came earlier" survives extending the list in front |
| ProjectRelation.SonsParentsFirst | devops-api/apis/resources/project_relation.py:39-45 | every son appears after its parent |
| ProjectRelation.SonsAllParentsFirst | devops-api/apis/resources/project_relation.py:42-44 | the same for the recursion over a level of children |
| ProjectRelation.SonsMeaning | devops-api/apis/resources/project_relation.py:39-45 | the sons list holds exactly the descendants, each after its parent |
| ProjectRelation.VisibleRun | devops-api/apis/resources/project_relation.py:73-86 | the length of the run of ancestors the caller may see, stopping at the first one hidden |
| ProjectRelation.RootOnFathers | devops-api/apis/resources/project_relation.py:84-89 | the root is the last ancestor of the visible run, or the project itself when the parent is hidden or missing |
| ProjectRelation.RootStep | devops-api/apis/resources/project_relation.py:86-89 | climbing to a visible parent does not change the answer |
| ProjectRelation.RootForced | devops-api/apis/resources/project_relation.py:73-89 | with force or role 5 the root is the topmost ancestor |
| ProjectRelation.VisibleAll | devops-api/apis/resources/project_relation.py:74-77 | with force or role 5 every ancestor is visible |
| ProjectRelation.RootWithoutParent | devops-api/apis/resources/project_relation.py:85-87 | a project without a visible parent is its own root |
| Redmine.Paging | devops-api/apis/resources/redmine.py:148-167 | the loop asks for pages until one does not hold exactly 100 items, returns the concatenation of the pages it fetched and the total count of the last reply |
| Redmine.CollectedPrefix | devops-api/apis/resources/redmine.py:155-164 | when the server slices one list into pages of 100, the first n pages concatenate to its first 100·n items |
| Redmine.FullPagesFit | devops-api/apis/resources/redmine.py:160-162 | n full pages fit in the list |
| Redmine.PagingCollectsAll | devops-api/apis/resources/redmine.py:148-167 | over such a server the loop returns the whole list after ⌊n/100⌋+1 requests |
| Redmine.StopAt | devops-api/apis/resources/redmine.py:471-474 | the loop stops at the first issue whose version is not tracked |
| Redmine.StopAtIs | devops-api/apis/resources/redmine.py:471-474 | a position before which every version is tracked and at which the next is not is that stopping point |
| Redmine.Applied | devops-api/apis/resources/redmine.py:475-481 | counting issues changes no version key |
| Redmine.AppliedStep | devops-api/apis/resources/redmine.py:471-481 | each issue is applied after those before it |
| Redmine.Analysed | devops-api/apis/resources/redmine.py:470-481 | `analysis_issue_type_by_versions` keeps the set of versions |
| Redmine.StepCounted | devops-api/apis/resources/redmine.py:477-481 | one issue keeps closed + unclosed equal to the issues listed for its version, and closed equal to those closed |
| Redmine.AppliedCounted | devops-api/apis/resources/redmine.py:471-481 | the same over every applied issue |
| Redmine.AnalysedCounted | devops-api/apis/resources/redmine.py:470-481 | after analysis closed + unclosed equals the number of issues appended to every version |
| Redmine.AppliedOwn | devops-api/apis/resources/redmine.py:475-481 | issues of one version are appended to it and counted as closed exactly when closed_on is not "" and the status is closed; other versions are untouched |
| Redmine.Listed | devops-api/apis/resources/redmine.py:451-468 | the versions dictionary holds exactly the requested versions, listed in insertion order without repeats |
| Redmine.ListedStep | devops-api/apis/resources/redmine.py:453-467 | each requested version is seeded and then analysed with its issues |
| Redmine.ListedCounted | devops-api/apis/resources/redmine.py:451-468 | every listed version's counters agree with its issues |
| Redmine.ListedExact | devops-api/apis/resources/redmine.py:451-468 | when each version's fetched issues belong to it, that version holds exactly those issues and their closed/unclosed counts |
| Redmine.ExactStep | devops-api/apis/resources/redmine.py:453-467 | seeding and analysing one more version keeps the earlier versions exact |
| Redmine.SeededAnalysed | devops-api/apis/resources/redmine.py:454-467 | a version seeded with zero counters and no issues, then analysed with its own issues, holds exactly them; no other version changes |
| Redmine.ClosedIds | devops-api/apis/resources/redmine.py:484-486 | exactly the ids of the statuses flagged closed |
| Redmine.ClosedIdsConcat | devops-api/apis/resources/redmine.py:483-487 | two calls add what one call over both lists adds |
| Redmine.Values | devops-api/apis/resources/redmine.py:468 | `list(self.versions.values())` in insertion order |
| Redmine.RedmineClient.AnalysisIssueTypeByVersions | devops-api/apis/resources/redmine.py:470-481 | the versions become `Analysed` of the old ones, nothing else changes |
| Redmine.RedmineClient.RmListIssuesByVersionsAndClosed | devops-api/apis/resources/redmine.py:451-468 | the versions and their order become `Listed`, and the reply is their values in that order |
| Redmine.RedmineClient.GetClosedStatus | devops-api/apis/resources/redmine.py:483-487 | the closed ids are appended to the accumulated list, which is returned |
| Redmine.TargetsErrKept | devops-api/apis/resources/redmine.py:695-710 | once a target raises, the whole check raises the same |
| Redmine.TargetsFail | devops-api/apis/resources/redmine.py:695-710 | the check raises exactly when some target's id is not a number or not a known version |
| Redmine.TargetsCheck | devops-api/apis/resources/redmine.py:695-710 | check is false exactly when some target has unclosed ≠ 0, which is exactly when a failed name was recorded |
| Redmine.StepCheck | devops-api/apis/resources/redmine.py:704-710 | after one target the check still holds exactly when it held before and the target has no unclosed issues |
| Redmine.TargetsCollect | devops-api/apis/resources/redmine.py:695-710 | issues are the concatenation of all targets' issues and every target is either passed or failed |
| Redmine.TargetsVersions | devops-api/apis/resources/redmine.py:698 | versions are the targets' ids as integers, in order |
| Redmine.Targets | devops-api/apis/resources/redmine.py:695-710 | fails only on a non-integer or unknown version; otherwise no info yet, and check holds exactly when no version failed |
| Redmine.VersionsAppended | devops-api/apis/resources/redmine.py:698 | appending one more id keeps that correspondence |
| Redmine.ReleaseCheckedMeaning | devops-api/apis/resources/redmine.py:684-715 | check is true exactly when no target has unclosed issues; info is non-empty exactly when some version failed and then names the failed versions; issues and versions are as above |
| Redmine.ReleaseChecked | devops-api/apis/resources/redmine.py:684-715 | fails only on a non-integer or unknown version; otherwise check holds exactly when the info is empty, and a failed check lists the failed versions in the info |
| Redmine.CheckRedemineRelease | devops-api/apis/resources/redmine.py:684-715 | the loop computes exactly `ReleaseChecked` |
| Role.NameIn | devops-api/apis/resources/role.py:35-39 | the name of the first role with that id, or "Unknown Role" |
| Role.GetRoleName | devops-api/apis/resources/role.py:35-39 | the unknown-role name exactly for an id other than 3, 5 and 6 |
| Role.RoleNames | devops-api/apis/resources/role.py:17-39 | 3, 5 and 6 are named; every other id, RD (1) and QA (7) included, is "Unknown Role" |
| Role.Listed | devops-api/apis/resources/role.py:48-50 | the loop finds the caller's role exactly when it is listed |
| Role.RequireRole | devops-api/apis/resources/role.py:42-51 | passes exactly when the caller's role is allowed (a single int meaning that one role), otherwise NotAllowedError with the message |
| Role.RequireAdmin | devops-api/apis/resources/role.py:54-55 | passes exactly for role 5 |
| Role.RequirePm | devops-api/apis/resources/role.py:58-68 | passes exactly for PM, for ADMIN unless excluded and for QA unless excluded |
| Role.VerifyProjectUser | devops-api/apis/resources/role.py:111-115 | project −1, as `int()` reads it (so " -1" too), is always verified; otherwise true exactly when the user is a member; an id that is not a number raises |
| Role.RequireInProject | devops-api/apis/resources/role.py:71-90 | an admin passes unless `even_admin`, project −1 and members pass, anybody else gets NotInProjectError |
| Role.RequireUserHimself | devops-api/apis/resources/role.py:93-108 | the user themself passes; another user is refused exactly for RD, for PM when `even_pm` and for ADMIN when `even_admin`, with NotUserHimselfError and the given message |
| Role.HimselfDefaults | devops-api/apis/resources/role.py:93-108 | with the defaults only RD and PM are refused, with "Only admin can access another user's data." |
| Role.GetUserRoles | devops-api/apis/resources/role.py:118-128 | PM and ADMIN in that order, keyed "value" in option mode and "id" otherwise; never BOT |
| Role.RowsOf | devops-api/apis/resources/role.py:136 | the increasing indices of exactly the user's rows |
| Role.RoleUpdatedMissing | devops-api/apis/resources/role.py:137-138 | "User not found" exactly when the user has no row |
| Role.RoleUpdatedSeveral | devops-api/apis/resources/role.py:139-144 | with several rows nothing changes when the first already has the new role, and otherwise "User is in a project" |
| Role.RoleUpdatedSingle | devops-api/apis/resources/role.py:145-146 | a single row gets the new role and nothing else changes |
| Role.RoleTable.UpdateRole | devops-api/apis/resources/role.py:135-146 | on success the rows become `RoleUpdated` of the old ones, on an error they are unchanged and the error is returned |
| User.ToRedmineRoleId | devops-api/apis/resources/user.py:131-141 | RD (1) maps to 3 and every other role to 4 |
| User.GetTokenExpires | devops-api/apis/resources/user.py:144-148 | 36500 days exactly for role 5, one day for every other role |
| User.UpperAt | devops-api/apis/resources/user.py:521 | the k-th letter of `string.ascii_uppercase` is upper case |
| User.LowerAt | devops-api/apis/resources/user.py:529 | the k-th letter of `string.ascii_lowercase` is lower case |
| User.UpperIndex | devops-api/apis/resources/user.py:521 | every upper-case letter is visited by the loop over `ascii_uppercase` |
| User.LowerIndex | devops-api/apis/resources/user.py:529 | every lower-case letter is visited by the loop over `ascii_lowercase` |
| User.CheckUppercase | devops-api/apis/resources/user.py:521-528 | the first loop finds an upper-case letter exactly when the password has one, with the message of that outcome |
| User.CheckLowerRuns | devops-api/apis/resources/user.py:529-537 | the lower-case loop leaves the continuity entry of the last letter with a run of three (true when a letter touches the run), and sets the run message exactly when some isolated run exists |
| User.CheckUpperRuns | devops-api/apis/resources/user.py:538-547 | the upper-case loop sets continuity true at the first run touching a letter (and stops), false when only isolated runs exist, and otherwise keeps what the lower-case loop left |
| User.AllPass | devops-api/apis/resources/user.py:558-563 | valid is true exactly when every recorded check is true |
| User.AllPassCases | devops-api/apis/resources/user.py:558-563 | with three or four checks, valid means uppercase, no failed continuity, length and difference |
| User.Checker | devops-api/apis/resources/user.py:515-564 | valid and message are those of the specification; the checks are uppercase, continuity (only when some letter runs three times), length ≥ 8 and difference from the old password, in that order |
| User.LowerRunNone | devops-api/apis/resources/user.py:529-537 | the lower-case loop records nothing exactly when no lower-case letter runs three times |
| User.LetterRunHasRun | devops-api/apis/resources/user.py:530-533 | a run touching a letter is a run |
| User.ContinuityAbsent | devops-api/apis/resources/user.py:529-547 | the continuity key is added exactly when some letter appears three or more times in a row |
| User.ContinuityExamples | devops-api/apis/resources/user.py:529-547 | "Ab-aaa-1x" has an isolated run and is invalid; "aaaa" is a run touching a letter |
| User.IsolatedRun | devops-api/apis/resources/user.py:529-537 | "Ab-aaa-1x" records continuity false |
| User.LowerRunFirst | devops-api/apis/resources/user.py:529-537 | when 'a' is the only letter with a run, the lower-case loop's verdict is that of 'a' |
| User.EightCharactersPass | devops-api/apis/resources/user.py:548-552 | an 8-character password passes despite the "nine word" message |
| User.CreateUserCheck | devops-api/apis/resources/user.py:733-765 | passes exactly when the login name matches the pattern and, unless `from_ad`, the password does; a refused name gives the `invalid_user_name` detail naming it, exactly when the name fails, and a refused password the `invalid_user_password` detail, both with the 400 "Error when creating new user" |
| User.CreateUserAccepts | devops-api/apis/resources/user.py:735-765 | "ab" with "Passw0rd" is accepted |
| User.CreateUserRefusesNames | devops-api/apis/resources/user.py:735-743 | "a" (too short) and "a_" (not ending alphanumeric) are refused as names |
| User.CreateUserNeedsUpper | devops-api/apis/resources/user.py:748-765 | "password1" is refused as a password, unless the user comes from AD |
| User.CreateUserRefusesSpace | devops-api/apis/resources/user.py:755-758 | a password with a space is refused as a password |
| User.Missing | devops-api/apis/resources/user.py:508-511 | exactly the servers with no stored row |
| User.EveryServerReported | devops-api/apis/resources/user.py:508-512 | a reply listing the stored rows and then the missing servers names every server |
| User.GetDecodePassword | devops-api/apis/resources/user.py:495-512 | one status-0 entry per stored row with its decoded password, then a status-1 entry per missing server, so redmine, gitlab, harbor and sonarqube always appear |
| SystemParameter.FindId | devops-api/apis/resources/system_parameter.py:287-333 | none exactly when no entry has the id, otherwise the first entry with it |
| SystemParameter.CreatedEffect | devops-api/apis/resources/system_parameter.py:264-284 | a duplicate (MIME type, extension) pair raises 400 and changes nothing; on an empty list reading the last id crashes; otherwise one entry is appended with an id above every existing id, and returned |
| SystemParameter.Created | devops-api/apis/resources/system_parameter.py:264-284 | fails as "duplicated" exactly when the mime type and extension pair exists, changing nothing; otherwise one entry is appended |
| SystemParameter.CreatedValid | devops-api/apis/resources/system_parameter.py:264-284 | creating keeps ids unique and pairs distinct |
| SystemParameter.RemoveFound | devops-api/apis/resources/system_parameter.py:295-297 | `list.remove` of the first entry with the id removes exactly that position |
| SystemParameter.DeletedEffect | devops-api/apis/resources/system_parameter.py:287-299 | an unknown id returns {} and leaves the list; otherwise the entry with the id is removed and returned and no entry with the id is left |
| SystemParameter.Deleted | devops-api/apis/resources/system_parameter.py:287-299 | never fails; nothing is removed exactly when no entry has the id; otherwise the removed entry has it and the list is one shorter |
| SystemParameter.SpliceValid | devops-api/apis/resources/system_parameter.py:295-297 | removing an entry keeps the list valid |
| SystemParameter.DeletedValid | devops-api/apis/resources/system_parameter.py:287-299 | deleting keeps the list valid |
| SystemParameter.Merged | devops-api/apis/resources/system_parameter.py:302-319 | merging the renamed arguments into an entry keeps its id |
| SystemParameter.UpdatedEffect | devops-api/apis/resources/system_parameter.py:302-333 | an unknown id returns {} and changes nothing; otherwise it raises 400 and changes nothing exactly when another entry has the merged pair, and else the merged entry replaces the old one at its index and is returned |
| SystemParameter.Updated | devops-api/apis/resources/system_parameter.py:302-333 | a failure is "duplicated" and changes nothing; an unknown id changes nothing and returns none; the list keeps its length |
| SystemParameter.UpdateSplice | devops-api/apis/resources/system_parameter.py:316-330 | removing the entry and re-inserting the merged one at its index is replacing it in place, and the duplicate scan over the rest sees exactly the other entries |
| SystemParameter.UpdatedValid | devops-api/apis/resources/system_parameter.py:302-333 | updating keeps the list valid |
| SystemParameter.DistinctNamesMeaning | devops-api/apis/resources/system_parameter.py:336-343 | the names are distinct, are exactly the non-None names of the list, and come in order of first occurrence |
| SystemParameter.NamedPrefix | devops-api/apis/resources/system_parameter.py:336-343 | a name absent from the list is absent from each prefix |
| SystemParameter.UploadSettings.ScanPair | devops-api/apis/resources/system_parameter.py:269-274 | the duplicate loop finds a pair exactly when some entry has it |
| SystemParameter.UploadSettings.Find | devops-api/apis/resources/system_parameter.py:291-293 | the search loop finds exactly `FindId` |
| SystemParameter.UploadSettings.CreateUploadFileTypes | devops-api/apis/resources/system_parameter.py:264-284 | list and reply become `Created` of the old list; the size setting is untouched |
| SystemParameter.UploadSettings.DeleteUploadFileTypes | devops-api/apis/resources/system_parameter.py:287-299 | list and reply become `Deleted` of the old list; the size setting is untouched |
| SystemParameter.UploadSettings.UpdateUploadFileTypes | devops-api/apis/resources/system_parameter.py:302-333 | list and reply become `Updated` of the old list; the size setting is untouched |
| SystemParameter.UploadSettings.UpdateUploadFileSize | devops-api/apis/resources/system_parameter.py:244-260 | a size in 0..100 is stored; any other raises the 404 "invalid value" error and changes nothing |
| SystemParameter.UploadSettings.GetUploadFileDistinctName | devops-api/apis/resources/system_parameter.py:336-343 | the loop returns exactly `DistinctNames` |
| Redis.BoolValue | devops-api/apis/resources/redis.py:52-70 | true exactly when a value is stored, is non-empty and lower-cases to "1", "true" or "yes"; a missing key is false |
| Redis.BoolRoundTrip | devops-api/apis/resources/redis.py:52-80 | reading what `bool_set` stores (`str(b).lower()`) gives b back |
| Redis.RedisStore.BoolGet | devops-api/apis/resources/redis.py:52-70 | the same rule on the store's strings |
| Redis.RedisStore.BoolSet | devops-api/apis/resources/redis.py:72-80 | only that key changes, and reading it back gives the value set |
| Redis.RemoveFirstNoComma | devops-api/apis/resources/redis.py:168-174 | removing an id from comma-free ids keeps them comma-free |
| Redis.AddedRelation | devops-api/apis/resources/redis.py:181-188 | only the parent's entry can change; a parent without entry gets just the child id; adding a listed child changes nothing |
| Redis.AddedChildren | devops-api/apis/resources/redis.py:181-188 | the parent's children become the old ones plus the child at the end, unless it was already listed |
| Redis.AddIdempotent | devops-api/apis/resources/redis.py:181-188 | adding twice is adding once |
| Redis.RemovedRelation | devops-api/apis/resources/redis.py:164-174 | an absent parent or unlisted child changes nothing; only the parent's entry can change; removing the only child deletes the key |
| Redis.RemovedChildren | devops-api/apis/resources/redis.py:164-174 | the parent's children lose exactly the first occurrence of the child and keep their order |
| Redis.AddRemoveRoundTrip | devops-api/apis/resources/redis.py:164-188 | removing a child just added gives the hash back |
| Redis.RedisStore.HasSon | devops-api/apis/resources/redis.py:150-151 | `hexists`: the parent has an entry, which is exactly when it lists a child |
| Redis.RedisStore.UpdateIssueRelations | devops-api/apis/resources/redis.py:154-157 | the hash is replaced by the given one (empty for {}); nothing else changes |
| Redis.RedisStore.RemoveIssueRelations | devops-api/apis/resources/redis.py:177-178 | only the parent's key is deleted |
| Redis.RedisStore.AddIssueRelation | devops-api/apis/resources/redis.py:181-188 | the hash becomes `AddedRelation` of the old one; nothing else changes |
| Redis.RedisStore.RemoveIssueRelation | devops-api/apis/resources/redis.py:164-174 | the hash becomes `RemovedRelation` of the old one; nothing else changes |
| Redis.DerivedStatus | devops-api/apis/resources/redis.py:221-226 | "not_started" exactly when the total is 0, "closed" exactly when it is non-zero and all closed, "in_progress" otherwise |
| Redis.UpdatedCalc | devops-api/apis/resources/redis.py:216-228 | the deltas are added to total and closed, overdue is kept, and the status agrees with the new counters |
| Redis.DefaultAgrees | devops-api/apis/resources/redis.py:192-201 | the default record (all counters 0, "not_started") is consistent |
| Redis.UpdatesCompose | devops-api/apis/resources/redis.py:216-228 | two updates are one update with the summed deltas |
| Redis.RedisStore.CertainCalc | devops-api/apis/resources/redis.py:192-209 | a project without a record reads as the default record, otherwise its record |
| Redis.RedisStore.UpdatePjIssueCalc | devops-api/apis/resources/redis.py:216-228 | only that project's record changes, to the updated one, whose status agrees with its counters |
| Util.EncodeChar | devops-api/apis/util.py:195-202 | a–z, 1–9, '-' and '.' pass through, an upper-case letter becomes its lower case and "0", '0' becomes "00", '_' becomes "-0", anything else is dropped; the output uses only service-account characters |
| Util.Encoded | devops-api/apis/util.py:192-203 | the encoding contains only lower-case letters, digits, '-' and '.' |
| Util.EncodeK8sSa | devops-api/apis/util.py:192-203 | the loop builds exactly `Encoded` |
| Util.EncodedAppend | devops-api/apis/util.py:194-202 | the encoding of a concatenation is the concatenation of the encodings |
| Util.MergeZero | devops-api/apis/util.py:206-212 | undoes the marker: a lower-case letter gives its upper case, '-' gives '_', '0' stays |
| Util.LeadingZeros | devops-api/apis/util.py:226-233 | the length of the run of zeros at the front |
| Util.DecodedHead | devops-api/apis/util.py:234-243 | a character and k zeros decode to 1 + k div 2 characters |
| Util.DecodedAt | devops-api/apis/util.py:218-246 | one pass of the outer loop consumes a character and its zero run |
| Util.DecodeK8sSa | devops-api/apis/util.py:215-247 | the loop builds exactly `Decoded` |
| Util.DecodeZeroRun | devops-api/apis/util.py:225-243 | the inner loop and the odd/even branches decode the character and its zeros to `DecodedHead` and move past them |
| Util.EncodedZeros | devops-api/apis/util.py:199-200 | m zeros encode to 2·m zeros |
| Util.EncodedHead | devops-api/apis/util.py:194-202 | the encoding of a valid name not starting with '0' does not start with '0' |
| Util.DecodePiece | devops-api/apis/util.py:215-247 | a character's encoding followed by an even zero run decodes to the character and half the zeros |
| Util.DecodeEncode | devops-api/apis/util.py:192-247 | round trip: for names over [A-Za-z0-9_.-], decoding the encoding gives the name back |
| Util.DecodedLast | devops-api/apis/util.py:218-223 | when the input does not end in '0' the decoding ends with its last character |
| Util.GetPagination | devops-api/apis/util.py:301-315 | a zero limit is a division error; otherwise limit, offset and total are echoed, prev is None exactly when current ≤ 1 and is current−1 otherwise, next is None exactly when current+1 > pages and is current+1 otherwise |
| Util.PaginationPages | devops-api/apis/util.py:301-305 | for offset ≥ 0 and limit > 0, current = offset div limit + 1 and pages is the ceiling of total/limit |
| Util.ListPagination | devops-api/apis/util.py:328-336 | the page dict counts the whole list and the returned list is no longer than it; a zero limit raises |
| Util.ListPaginationWindow | devops-api/apis/util.py:328-336 | limit defaults to 10 and offset to 0; the page dict is that of the full length; the list is `out_list[offset:offset+limit]` when limit − offset ≤ its length and unsliced otherwise |
| Util.IsDummyProject | devops-api/apis/util.py:55-59 | since `type(project_id == str)` is always truthy, the id is converted with `int`: a number is dummy exactly when it is −1, and a string raises when `int()` refuses it and is otherwise dummy exactly when it reads −1 (surrounding whitespace and single underscores allowed, so " -1" and "-1\n" are dummy) |
| Issue.ParseAll | devops-api/apis/resources/issue.py:322-327 | every tag parses with `int` exactly when the result exists, and it holds the parsed values in order |
| Issue.SortedInsert | devops-api/apis/resources/issue.py:322-327 | inserting keeps the list strictly increasing and adds exactly the new value |
| Issue.SortedSetOf | devops-api/apis/resources/issue.py:322-327 | `sorted(set(...))`: strictly increasing with the same members |
| Issue.CheckTagsIdIsInt | devops-api/apis/resources/issue.py:322-327 | `[""]` gives []; otherwise it succeeds exactly when every tag parses under `int()` (so " 2" is 2), fails with a ValueError otherwise, and returns the parsed ids sorted without duplicates |
| Issue.FirstTracker | devops-api/apis/resources/issue.py:834-851 | the tracker found has the asked id; none is found exactly when no tracker has it |
| Issue.CheckTrackersInUpdateIssue | devops-api/apis/resources/issue.py:834-851 | raises 400 exactly when a new tracker id is given, is one that needs the check and names an existing tracker; without a new tracker id it passes |
| Issue.DictSet | devops-api/apis/resources/issue.py:924-940 | assigning a key of an insertion-ordered dict adds that key and grows the dict only when the key is new |
| Issue.DictSetTwice | devops-api/apis/resources/issue.py:924-940 | the second assignment to a key overrides the first |
| Issue.Families | devops-api/apis/resources/issue.py:916-940 | the parsed family hash has the same parents, each with its comma-separated children |
| Issue.Preorder | devops-api/apis/resources/issue.py:924-940 | the visit order starts with the issue itself |
| Issue.KidsOf | devops-api/apis/resources/issue.py:924-940 | the subtree dict of a sons list has exactly those sons as keys |
| Issue.WalkStep | devops-api/apis/resources/issue.py:931-939 | one son more appends that son's preorder to the order and sets its subtree in the dict |
| Issue.FindAll | devops-api/apis/resources/issue.py:924-940 | the recursion appends the issue's preorder to the visited ids and returns its subtree |
| Issue.WalkSons | devops-api/apis/resources/issue.py:931-939 | the loop over the sons appends their preorders and builds their subtree dict |
| Issue.VisitSon | devops-api/apis/resources/issue.py:933-938 | a son is visited and its subtree stored under its id |
| Issue.GetAllSonsIds | devops-api/apis/resources/issue.py:916-940 | the mapping is `{id: subtree}` and the id list is the preorder of the family hash from the issue |
| Issue.PreorderParentsFirst | devops-api/apis/resources/issue.py:924-940 | in the id list every issue comes after its parent |
| Issue.PreorderAllParentsFirst | devops-api/apis/resources/issue.py:931-939 | the same for the preorder of a sons list under their parent |
| Issue.AllSonsIdsShape | devops-api/apis/resources/issue.py:916-940 | the id list starts with the issue and every later id is a child of an earlier one; the top subtree's keys are the issue's children |
| Issue.HandleExceedLimitLengthDefaultFilter | devops-api/apis/resources/issue.py:1237-1243 | the filters produced are the accumulator followed by one filter per chunk of ids |
| Issue.ChunksCount | devops-api/apis/resources/issue.py:1237-1243 | there are ceil(n / 200) chunks |
| Issue.ChunksShape | devops-api/apis/resources/issue.py:1237-1243 | each filter differs from the original only in `issue_id`, which holds 1 to 200 ids |
| Issue.ChunksIds | devops-api/apis/resources/issue.py:1237-1243 | the chunks' ids concatenated are the ids in order |
| Issue.DueDateFilter | devops-api/apis/resources/issue.py:1486-1492 | no `due_date` filter exactly when both bounds are empty |
| Issue.DueDateBounds | devops-api/apis/resources/issue.py:1486-1492 | both bounds give "><start\|end", start only ">=start", end only "<=end", and the bounds can be read back |
| Issue.GenerateDefaultFilterValue | devops-api/apis/resources/issue.py:1571-1576 | None exactly for no values; otherwise a string starting with '!' |
| Issue.DefaultFilterValueRoundTrip | devops-api/apis/resources/issue.py:1571-1576 | splitting the text after '!' on '\|' gives the values back |
| Issue.KeywordRule | devops-api/apis/resources/issue.py:1523-1568 | a falsy value sets nothing; "null" sets "!*"; status "all" sets "*"; a user list, or a version list holding "null", needs the user or version lookup; a digit string of any other key than status, priority or tracker sets nothing |
| Issue.KeywordRuleCopies | devops-api/apis/resources/issue.py:1564-1568 | a value matching no special case is copied unchanged |
| Issue.KeywordRuleDigits | devops-api/apis/resources/issue.py:1564-1566 | digits become an int for status, priority and tracker and are dropped for parent and issue |
| Issue.PlanUserId | devops-api/apis/resources/issue.py:1583-1588 | the user's plan user id, or the 404 "User id {id} does not exist." exactly for an unknown user |
| Issue.PlanIdTexts | devops-api/apis/resources/issue.py:1536-1540 | succeeds exactly when every user is known, with one plan id text per user in order; otherwise the 404 of the first unknown user |
| Issue.AssigneeTexts | devops-api/apis/resources/issue.py:1544-1547 | succeeds exactly when every id text is read by `int()` and names a known user, with their plan ids in order; otherwise the error of the first bad text: `int()`'s ValueError or the 404 |
| Issue.Except | devops-api/apis/resources/issue.py:1536-1540 | keeps exactly the values not in the dropped list, and is no longer than the list |
| Issue.AssigneesMeaning | devops-api/apis/resources/issue.py:1543-1547 | an assignee list without "null" succeeds exactly when every id is a number naming a known user, and is then the '\|'-joined plan ids in order |
| Issue.UnassignedMeaning | devops-api/apis/resources/issue.py:1531-1542 | an assignee list holding "null", whose other ids parse, over a project whose users are all known: the filter is "!" and the plan ids of the project users not listed, or nothing when none is left |
| Issue.UnassignedValue | devops-api/apis/resources/issue.py:1531-1542 | after the listed ids are read, the branch is the lookup of the other project users: its 404 is raised, or its texts give the "!" filter |
| Issue.ExceptKnown | devops-api/apis/resources/issue.py:1536-1540 | the users left after the exclusion are among the project's users, so known when those are |
| Issue.AssigneesValue | devops-api/apis/resources/issue.py:1543-1547 | without "null" the branch is the id-by-id conversion and lookup, or its error |
| Issue.UnknownSingle | devops-api/apis/resources/issue.py:1545-1546 | one numeric id naming no user raises that user's 404 |
| Issue.VersionsExceptMeaning | devops-api/apis/resources/issue.py:1549-1557 | a version list holding "null" as an item filters for "!" and the project's versions not listed, or sets nothing when none is left |
| Issue.NullPartOccurs | devops-api/apis/resources/issue.py:1532-1533 | an item "null" of the split list is an occurrence of "null" in the text, so the substring test passes |
| Issue.JoinHasPart | devops-api/apis/resources/issue.py:1532-1533 | a joined text contains each of its non-empty parts |
| Issue.VersionInWordRaises | devops-api/apis/resources/issue.py:1549-1551 | "5\|nullx" passes the substring test and raises the ValueError of `remove("null")` |
| Issue.InWordSplit | devops-api/apis/resources/issue.py:1550 | "5\|nullx" splits on '\|' into "5" and "nullx" |
| Issue.VersionRemoveRaises | devops-api/apis/resources/issue.py:1549-1551 | a version list whose items do not include "null" raises the ValueError of `remove("null")` |
| Issue.AssigneeNotNumberRaises | devops-api/apis/resources/issue.py:1545-1546 | the assignee "a" raises `int()`'s ValueError |
| Issue.AssigneeUnknownRaises | devops-api/apis/resources/issue.py:1545-1546 | the assignee "7", unknown to the user table, raises the 404 "User id 7 does not exist." |
| Issue.SevenRead | devops-api/apis/resources/issue.py:1545-1546 | `int("7")` is 7 and `str(7)` is "7" |
| Issue.KeywordStep | devops-api/apis/resources/issue.py:1524-1568 | handling one key changes only that key, as the rule says; it raises only for a key needing the user or version lookup, with that lookup's error |
| Issue.KeywordsApplied | devops-api/apis/resources/issue.py:1513-1568 | when nothing raises, keys outside the first n keywords are untouched |
| Issue.KeywordsErrKept | devops-api/apis/resources/issue.py:1523-1568 | once a key raises, the later keys are not handled and the loop raises that error |
| Issue.HandleAllowedKeywords | devops-api/apis/resources/issue.py:1513-1568 | the loop applies the rule of each of the seven keywords in order, and returns the first exception raised |
| Issue.KeywordsFailOnLookup | devops-api/apis/resources/issue.py:1523-1568 | the loop raises exactly when some key needing the user or version lookup raises there |
| Issue.KeywordsDistinct | devops-api/apis/resources/issue.py:1514-1522 | the seven allowed keywords are distinct |
| Issue.KeywordsAppliedAt | devops-api/apis/resources/issue.py:1523-1568 | a keyword whose rule sets a value has that value after the loop, when it does not raise |
| Issue.NullAndAllKeywords | devops-api/apis/resources/issue.py:1526-1529 | when the loop does not raise, every allowed keyword given "null" ends as "!*" and status "all" ends as "*" |
| Issue.HandleSyncSonIssue | devops-api/apis/resources/issue.py:2662-2671 | no stored value gives the id; a value already listing the id is kept |
| Issue.SyncSonIds | devops-api/apis/resources/issue.py:2662-2671 | a new id is appended to the list |
| Issue.JoinSnoc | devops-api/apis/resources/issue.py:2662-2671 | joining a list with one more item adds the separator and the item |
| Issue.SyncSonIdempotent | devops-api/apis/resources/issue.py:2662-2671 | syncing the same son twice is syncing once |
| Issue.SyncMatchesAdd | devops-api/apis/resources/issue.py:2662-2671 | the synced value is what the Redis `add_issue_relation` stores for the parent |
| Template.VersionParts | devops-api/apis/resources/template/__init__.py:176-177 | splitting a version on '.' gives at least one part |
| Template.Padded | devops-api/apis/resources/template/__init__.py:192-195 | short lists are padded with "0" to three parts and longer ones are kept |
| Template.VerHighGreaterVerLow | devops-api/apis/resources/template/__init__.py:179-207 | the method compares part by part as `AtLeastFrom` specifies |
| Template.AtLeastFromOrder | devops-api/apis/resources/template/__init__.py:179-207 | on numeric parts the comparison is lexicographic ≥ over major, minor and patch |
| Template.AtLeastFrom | devops-api/apis/resources/template/__init__.py:179-207 | a result needs every compared part to parse under `int()`; a failure is the ValueError of `int()` |
| Template.TagVersionRange | devops-api/apis/resources/template/__init__.py:175-207 | a tag is in range when it is ≥ the start and, when an end is given, ≤ the end |
| Template.TripleAtLeastRefl | devops-api/apis/resources/template/__init__.py:179-207 | a version is at least itself |
| Template.SecretUrl | devops-api/apis/resources/template/__init__.py:389-396 | the credentials are inserted after "https://" or "http://" |
| Template.SecretUrlRemovable | devops-api/apis/resources/template/__init__.py:389-396 | only the credentials are inserted: cutting them out gives the URL back |
| Template.GenerateTempPipelineTool | devops-api/apis/resources/template/__init__.py:563-568 | fails exactly when the name has no comma; otherwise key and name are the first two parts and the enable flag is kept |
| Template.TempToolOfPair | devops-api/apis/resources/template/__init__.py:563-568 | "key,name" gives back key and name |
| Template.ChartToolName | devops-api/apis/resources/template/__init__.py:582-591 | fails exactly when the chart reference has no ':' |
| Template.GetToolName | devops-api/apis/resources/template/__init__.py:571-594 | the `iiidevops` field wins; a SonarQube Java stage gives "sonarqube"; otherwise no steps crash, a step without chart is "deployed-environments", and a chart gives its tool name |
| Template.ReplaceAllAbsent | devops-api/apis/resources/template/__init__.py:583-594 | replacing an absent pattern changes nothing |
| Template.ChartToolNameOfKind | devops-api/apis/resources/template/__init__.py:583-594 | a "catalog:iii-dev-charts3-test-tool" or "-scan-" chart reference gives back the tool |
| Template.ChartToolNameOfTool | devops-api/apis/resources/template/__init__.py:582-591 | a chart named by a plain tool, with or without the "iii-dev-charts3-" prefix, gives that tool |
| Template.ChartToolNameWeb | devops-api/apis/resources/template/__init__.py:583-586 | the "web" chart, with or without the prefix, gives "deployed-environments" |
| Template.GetToolNameOfStep | devops-api/apis/resources/template/__init__.py:571-594 | without `iiidevops`, outside the SonarQube Java stage, a first step without catalog template and the web chart give "deployed-environments", and a test or scan chart gives its tool |
| Template.FormatHelper | devops-api/apis/resources/template/__init__.py:597-603 | descends further exactly when the key holds a dict |
| Template.HandleStageFormat | devops-api/apis/resources/template/__init__.py:606-614 | the branches read are those at `when.branch.include` |
| Template.FormatOfWhen | devops-api/apis/resources/template/__init__.py:606-614 | a stage whose `when` was written with a branch list reads back that list; a stage without `when` reads [] |
| Template.Toggled | devops-api/apis/resources/template/__init__.py:623-628 | enabling adds the branch, disabling a branch listed at most once removes it, other branches are untouched |
| Template.Pruned | devops-api/apis/resources/template/__init__.py:630-636 | the list is never empty ("skip" when nothing is left) and keeps exactly the kept branches other than "skip" |
| Template.NewIncludeFacts | devops-api/apis/resources/template/__init__.py:617-638 | the new list is ["skip"] or only existing branches; an existing enabled branch is in it, a disabled one is not, and others are kept exactly when they exist |
| Template.UpdateBranches | devops-api/apis/resources/template/__init__.py:617-638 | a tool name error is passed on; another tool leaves the stage unchanged; the matching tool gets its `when` written with the new list and reports whether it changed |
| Template.EditInclude | devops-api/apis/resources/template/__init__.py:622-637 | the method computes the new list and flag as `NewInclude` specifies |
| Migrate.NeedsUpgrade | devops-api/apis/migrate/__init__.py:97-105 | the loop over the four parts computes `UpgradeNeeded` |
| Migrate.UpgradeNeeded | devops-api/apis/migrate/__init__.py:97-105 | a result needs the first part of both versions to parse under `int()` |
| Migrate.SkipOne | devops-api/apis/migrate/__init__.py:149-150 | a first listed version not newer than the current one is skipped |
| Migrate.NeededFromOrder | devops-api/apis/migrate/__init__.py:97-105 | on numeric parts it decides the lexicographic order from part i on |
| Migrate.UpgradeNeededOrder | devops-api/apis/migrate/__init__.py:97-105 | for versions that parse, an upgrade is needed exactly when the target is newer than the current version |
| Migrate.NeededFromIrreflexive | devops-api/apis/migrate/__init__.py:97-105 | no part-wise comparison says a version needs an upgrade to itself |
| Migrate.UpgradeIrreflexive | devops-api/apis/migrate/__init__.py:97-105 | a version never needs upgrading to itself |
| Migrate.NeededFromAsymmetric | devops-api/apis/migrate/__init__.py:97-105 | if a needs b from part i on, b does not need a |
| Migrate.UpgradeAsymmetric | devops-api/apis/migrate/__init__.py:97-105 | if a needs upgrading to b, then b does not need upgrading to a |
| Migrate.NewerTransitive | devops-api/apis/migrate/__init__.py:97-105 | "newer" is transitive |
| Migrate.Texts | devops-api/apis/migrate/__init__.py:12-30 | the dotted text of each version, in order |
| Migrate.VersionTextParses | devops-api/apis/migrate/__init__.py:97-105 | the dotted text of a version splits and parses back to it |
| Migrate.VersionTextInjective | devops-api/apis/migrate/__init__.py:12-30 | distinct versions have distinct texts |
| Migrate.SameText | devops-api/apis/migrate/__init__.py:12-30 | two texts agree exactly when the versions do |
| Migrate.VersionsParse | devops-api/apis/migrate/__init__.py:12-30 | each entry of VERSIONS parses to the matching numeric version |
| Migrate.ListIncreasing | devops-api/apis/migrate/__init__.py:12-30 | the numeric versions are strictly increasing |
| Migrate.IncreasingOrdered | devops-api/apis/migrate/__init__.py:12-30 | in an increasing list a later version is newer than every earlier one |
| Migrate.VersionsIncreasing | devops-api/apis/migrate/__init__.py:12-30 | every later entry of VERSIONS needs an upgrade from every earlier one |
| Migrate.OnlyDbPositioned | devops-api/apis/migrate/__init__.py:31-44 | each ONLY_UPDATE_DB_MODELS entry sits at its recorded place in VERSIONS |
| Migrate.OnlyDbModelsListed | devops-api/apis/migrate/__init__.py:31-44 | ONLY_UPDATE_DB_MODELS is a subset of VERSIONS |
| Migrate.UpgradeAction | devops-api/apis/migrate/__init__.py:47-68 | a version runs the alembic upgrade exactly when it is listed in ONLY_UPDATE_DB_MODELS |
| Migrate.UpgradeDispatch | devops-api/apis/migrate/__init__.py:47-68 | the action chosen from a version's text is the one the numeric table gives |
| Migrate.SpecialVersions | devops-api/apis/migrate/__init__.py:55-68 | the versions that are not DB-only are exactly 1.22.0.4, 1.22.0.5, 1.23.0.1, 1.25.0.1 and 1.26.0.2 |
| Migrate.EveryVersionActs | devops-api/apis/migrate/__init__.py:47-68 | every entry of VERSIONS has an upgrade action |
| Migrate.Upgrades | devops-api/apis/migrate/__init__.py:146-160 | at most every listed version is applied |
| Migrate.UpgradesIncrease | devops-api/apis/migrate/__init__.py:146-160 | each applied version needs an upgrade from the one applied before it |
| Migrate.UpgradesListed | devops-api/apis/migrate/__init__.py:146-160 | only listed versions are applied |
| Migrate.SkipOlder | devops-api/apis/migrate/__init__.py:149-150 | versions not newer than the current one are skipped |
| Migrate.TakeAll | devops-api/apis/migrate/__init__.py:149-158 | when the first listed version is newer, every listed version is applied |
| Migrate.UpgradesFromParsed | devops-api/apis/migrate/__init__.py:146-160 | from a parsing current version, exactly the suffix of VERSIONS of newer versions is applied, without error |
| Migrate.WalkedUpgrades | devops-api/apis/migrate/__init__.py:149-158 | running over a concatenation is running over the first part and then the second from where it stopped, or stopping at the first error |
| Migrate.WalkStep | devops-api/apis/migrate/__init__.py:149-158 | one more version either stops at a parse error, is applied, or is skipped |
| Migrate.Migration.Run | devops-api/apis/migrate/__init__.py:146-160 | fails exactly when a version fails to parse; the applied versions are appended; the stored api version becomes the last one applied and the deploy version the configured one, and nothing changes when nothing applies |
| Migrate.Migration.RunOver | devops-api/apis/migrate/__init__.py:149-158 | the same loop over any version list |
| Model.ValidateDisplayFieldType | devops-api/apis/model.py:699-703 | accepted exactly when absent or "wbs_cache" / "issue_list", returned unchanged, otherwise the AssertionError message |
| Model.ValidateResourceType | devops-api/apis/model.py:731-746 | accepted exactly when absent or one of the eight resource types, returned unchanged, otherwise the AssertionError message |
| Model.ValidateFilterType | devops-api/apis/model.py:776-780 | accepted exactly when absent or "issue_list" / "issue_board" / "my_work", returned unchanged, otherwise the AssertionError message |
| Model.ExpectedFilterKeysSorted | devops-api/apis/model.py:760-771 | the expected key list is sorted |
| Model.SortedIsExpected | devops-api/apis/model.py:759-772 | the sorted keys equal the expected list exactly when the keys are a permutation of it |
| Model.ValidateCustomFilter | devops-api/apis/model.py:757-774 | accepted exactly when the filter keys are, as a multiset, the ten expected ones; otherwise the AssertionError |
| Model.FirstAt | devops-api/apis/model.py:958-959 | `.first()` returns a row that fits the filter |
| Model.FirstAtIsFirst | devops-api/apis/model.py:958-959 | nothing is found exactly when no row fits, and no earlier row fits |
| Model.Matching | devops-api/apis/model.py:939-940 | `.all()` returns only fitting rows |
| Model.MatchingMembers | devops-api/apis/model.py:939-940 | `.all()` holds exactly the fitting rows |
| Model.ChildrenNodes | devops-api/apis/model.py:938-940 | every child has this node as parent |
| Model.ChildrenNodesMembers | devops-api/apis/model.py:938-940 | the children are exactly the rows whose parent is this node |
| Model.FamilyQueries | devops-api/apis/model.py:928-944 | `is_parent` exactly when some row has this node as parent; `node_counts` of a stored node is between 1 and the table size |
| Model.FirstNode | devops-api/apis/model.py:957-959 | as written: a sibling under the same parent with old_brother 0, of any role |
| Model.FirstNodeOfRole | devops-api/apis/model.py:957-959 | the head of the node's own sibling list: same parent, old_brother 0 and same role |
| Model.FirstNodeOfRoleNone | devops-api/apis/model.py:957-959 | no head exactly when no row is one |
| Model.PrevNode | devops-api/apis/model.py:961-965 | None when old_brother is 0; otherwise the found row is the sibling whose id is old_brother |
| Model.PrevNodeNone | devops-api/apis/model.py:961-965 | not found exactly when no sibling has that id |
| Model.NextNode | devops-api/apis/model.py:974-976 | the found row is the sibling whose old_brother is this node |
| Model.NextNodeNone | devops-api/apis/model.py:974-976 | not found exactly when no sibling follows this node |
| Model.StepsFromMeaning | devops-api/apis/model.py:946-955 | a counted index is the position of the target along the next_node chain; a failure means the chain never reaches it within the bound |
| Model.LastFromMeaning | devops-api/apis/model.py:987-995 | the last node is reached by following next_node until there is none; a failure means the chain is longer than the table (a cycle) |
| Model.PrevAfterSet | devops-api/apis/model.py:967-972 | after setting prev_node, reading prev_node gives the node set |
| Model.RouteTable.NodeIndex | devops-api/apis/model.py:946-955 | the index is the 1-based position of the node in its role's sibling chain, or an error when there is no head or the chain never reaches the node |
| Model.RouteTable.CountSteps | devops-api/apis/model.py:951-953 | the loop counts as `StepsFrom` specifies |
| Model.RouteTable.LastNode | devops-api/apis/model.py:987-995 | the loop ends at the chain's end, or reports a cycle |
| Model.RouteTable.SetPrevNode | devops-api/apis/model.py:967-972 | old_brother becomes the node's id, or 0 for None; no other row changes |
| Model.RouteTable.SetNextNode | devops-api/apis/model.py:978-985 | a node gets this one as prev_node; None clears the prev_node of the current next node, if any |
| Model.FirstNodeIgnoresRole | devops-api/apis/model.py:957-959 | on two roles under one parent, `first_node` picks the other role's head and the walk never reaches the node, while the role-aware head is the node itself |
| Model.HeadIndexOne | devops-api/apis/model.py:946-959 | with the corrected head, a list head has index 1 |
| Model.ChainNext | devops-api/apis/model.py:974-976 | along a sibling list, `next_node` is the next entry, and None after the last |
| Model.ChainPrev | devops-api/apis/model.py:961-965 | along a sibling list, `prev_node` is the entry before, and None for the head |
| Model.ChainHead | devops-api/apis/model.py:957-959 | every entry's role-aware head is the list's head |
| Model.ChainSteps | devops-api/apis/model.py:946-955 | walking from entry a, entry b is reached as number b − a + 1 |
| Model.StepsAlong | devops-api/apis/model.py:946-955 | when every entry before b leads to the next one and is not the target, the count from entry a reaches b as number b − a + 1 |
| Model.ChainCount | devops-api/apis/model.py:942-944 | `node_counts` of an entry is the length of its sibling list |
| Model.ChainIndex | devops-api/apis/model.py:946-955 | `node_index` of entry k is k + 1 |
| Model.CountPositions | devops-api/apis/model.py:942-944 | `.count()` is the number of fitting rows |
| Model.FirstAtAgree | devops-api/apis/model.py:958-959 | `.first()` depends only on which rows fit |
| Router.DisabledNames | devops-api/apis/resources/router/__init__.py:18-21 | the names of the disabled plugins, exactly |
| Router.WithoutNames | devops-api/apis/resources/router/__init__.py:22-26 | keeps exactly the plugins whose name is not listed |
| Router.GetPluginSoftware | devops-api/apis/resources/router/__init__.py:13-31 | the full list, or in simple mode exactly the plugins whose name no disabled plugin has |
| Router.SimpleOmitsDisabled | devops-api/apis/resources/router/__init__.py:17-26 | the simple list holds no disabled plugin and keeps every plugin whose name no disabled plugin shares |
| Router.FirstChild | devops-api/apis/resources/router/__init__.py:57-59 | the first child is a child of the node that heads its sibling list |
| Router.Siblings | devops-api/apis/resources/router/__init__.py:63-70 | the node list starts at the first child, stays within the depth budget and follows next_node |
| Router.SiblingsEnd | devops-api/apis/resources/router/__init__.py:63-70 | a list shorter than the budget ends at a node without next node |
| Router.SiblingsGoOn | devops-api/apis/resources/router/__init__.py:63-70 | a list goes on while its nodes have a next node and the budget lasts |
| Router.Trees | devops-api/apis/resources/router/__init__.py:58-70 | one route per node of the list |
| Router.TreesAt | devops-api/apis/resources/router/__init__.py:58-70 | the k-th route is the route of the k-th node |
| Router.TreesErr | devops-api/apis/resources/router/__init__.py:58-70 | a failure is the failure of one of the nodes |
| Router.GetUiRoute | devops-api/apis/resources/router/__init__.py:54-74 | the method builds the node's route with its children nested, as `RouteTree` specifies |
| Router.ChildRoutes | devops-api/apis/resources/router/__init__.py:57-72 | the child routes are those of the first child's sibling list |
| Router.SiblingRoutes | devops-api/apis/resources/router/__init__.py:60-70 | the loop builds the routes of the sibling list and stops at its last node |
| Router.DisplayRoutes | devops-api/apis/resources/router/__init__.py:39-51 | a result needs a top-level head for the role, has at least two entries and ends with the error route |
| Router.DisplayRoutesOrder | devops-api/apis/resources/router/__init__.py:43-50 | the routes are those of the role's top-level list, in next_node order up to a node without next, then the error route |
| Router.DisplayByPermission | devops-api/apis/resources/router/__init__.py:39-51 | the method computes `DisplayRoutes` for the role |
| Router.Detached | devops-api/apis/resources/router/__init__.py:85-90 | the table keeps its size |
| Router.Moved | devops-api/apis/resources/router/__init__.py:77-101 | the table keeps its size |
| Router.WithPrevTouches | devops-api/apis/model.py:967-972 | setting prev_node changes only that row's old_brother |
| Router.MovedOnlyRelinks | devops-api/apis/resources/router/__init__.py:77-101 | moving changes only old_brother, and only of the node, its old next node and the target |
| Router.MovedDetaches | devops-api/apis/resources/router/__init__.py:88-90 | the old next node now follows the node's old prev node, or heads the list |
| Router.MovedBeforeTarget | devops-api/apis/resources/router/__init__.py:93-98 | the node takes the target's prev node and becomes the target's prev node |
| Router.MovedToEnd | devops-api/apis/resources/router/__init__.py:99-101 | moving to the end puts the node after the last node reached from its old next node, or fails there |
| Router.MoveNode | devops-api/apis/resources/router/__init__.py:77-101 | the table and the outcome are those of `Moved` |
| Router.Stepped | devops-api/apis/resources/router/__init__.py:127-135 | a node reached is in the table |
| Router.SteppedForward | devops-api/apis/resources/router/__init__.py:132-135 | stepping forward k times from a node is the k-step walk along next_node |
| Router.IndexUpdate | devops-api/apis/resources/router/__init__.py:104-143 | an index error is passed on; an index below 1 or above the role's sibling count raises ValueError and changes nothing; the current index changes nothing |
| Router.IndexUpdateMeaning | devops-api/apis/resources/router/__init__.py:104-143 | on a well-formed sibling list, moving an entry to any index from 1 to the list length passes; afterwards the node stands at that index (`node_index` reads it), the list holds the same nodes, and the others keep their order |
| Router.IndexUpdateChain | devops-api/apis/resources/router/__init__.py:104-143 | the rows after the move form the sibling list with the entry moved to the new place |
| Router.IndexUpdateTarget | devops-api/apis/resources/router/__init__.py:116-140 | moving up puts the node before the entry at the new place, moving down before the entry after it, or at the end when there is none |
| Router.MovingDownTarget | devops-api/apis/resources/router/__init__.py:132-140 | moving down puts the node before the node \|diff\|+1 steps after it, or at the end when the list ends exactly there |
| Router.SteppedStep | devops-api/apis/resources/router/__init__.py:127-135 | one step of the loops follows prev_node or next_node |
| Router.SteppedBack | devops-api/apis/resources/router/__init__.py:127-130 | stepping prev_node d times from entry k of a sibling list reaches entry k − d |
| Router.SteppedOn | devops-api/apis/resources/router/__init__.py:132-135 | stepping next_node d times from entry k reaches entry k + d, or None just past the end |
| Router.MovedToMeaning | devops-api/apis/resources/router/__init__.py:77-101 | the moved list has the same length and the same nodes, the moved one at its new place and the others in their old order |
| Router.MovedToSelf | devops-api/apis/resources/router/__init__.py:120-122 | moving a node to its own place changes nothing |
| Router.DetachedChain | devops-api/apis/resources/router/__init__.py:85-90 | taking a node out of its list makes its next node name its prev node |
| Router.DetachedNext | devops-api/apis/resources/router/__init__.py:85-101 | once a node is taken out, next_node from the later entries is unchanged |
| Router.LastOfChain | devops-api/apis/model.py:987-995 | `last_node` from an entry of a sibling list is its last entry |
| Router.NavigationAgree | devops-api/apis/model.py:961-965 | `prev_node` depends only on ids, parents and old brothers |
| Router.MovedUpRows | devops-api/apis/resources/router/__init__.py:77-98 | moving entry c up before entry t passes; only old brothers change: the node takes entry t's old brother, entry t names the node, entry c + 1 names entry c − 1, and no other row changes |
| Router.MovedDownRows | devops-api/apis/resources/router/__init__.py:77-98 | moving entry c down before entry t + 1 passes; only old brothers change: entry c + 1 names entry c − 1 (or heads the list), the node names entry t, entry t + 1 names the node, and no other row changes |
| Router.MovedToEndRows | devops-api/apis/resources/router/__init__.py:77-101 | moving entry c to the end passes; only old brothers change: entry c + 1 names entry c − 1 (or heads the list), the node names the old last entry, and no other row changes |
| Router.MovedUpChain | devops-api/apis/resources/router/__init__.py:77-98 | after moving up, the rows form the sibling list with the node at its new place |
| Router.MovedDownChain | devops-api/apis/resources/router/__init__.py:77-98 | after moving down, the rows form the sibling list with the node at its new place |
| Router.MovedToEndChain | devops-api/apis/resources/router/__init__.py:77-101 | after moving to the end, the rows form the sibling list with the node last |
| Router.RelinkedChain | devops-api/apis/resources/router/__init__.py:77-101 | relinking only old brothers of list entries so that the moved list is linked gives a sibling list again |
| Router.Step | devops-api/apis/resources/router/__init__.py:127-135 | the loop computes `Stepped` |
| Router.UpdateNodeIndex | devops-api/apis/resources/router/__init__.py:104-143 | the table and the outcome are those of `IndexUpdate`, so on a well-formed sibling list the node ends at position `index` (`IndexUpdateMeaning`) |
| Router.WithHidden | devops-api/apis/resources/router/__init__.py:192-198 | every row is updated as `HideRow` says |
| Router.HidingKeepsTree | devops-api/apis/resources/router/__init__.py:192-198 | only the `hidden` key of the matching routes changes, the tree links are kept, and hiding twice is hiding once |
| Router.UpdatePluginHidden | devops-api/apis/resources/router/__init__.py:175-198 | an unmapped plugin name changes nothing; a mapped one sets `hidden` on the routes of the mapped name |
| RouteUpgrade.Added | devops-api/apis/migrate/upgrade_function/ui_route_upgrade.py:29-39 | the new row is appended with the autoincrement id, which then advances |
| RouteUpgrade.AddedValid | devops-api/apis/migrate/upgrade_function/ui_route_upgrade.py:29-39 | adding a row whose links exist keeps the ids unique and the links known |
| RouteUpgrade.RouteId | devops-api/apis/migrate/upgrade_function/ui_route_upgrade.py:60-68 | the empty name gives 0 and a missing name None |
| RouteUpgrade.RouteIdMeaning | devops-api/apis/migrate/upgrade_function/ui_route_upgrade.py:60-68 | a name gives None exactly when no route of that name and role exists, and otherwise the id of such a route |
| RouteUpgrade.RouteIdBelow | devops-api/apis/migrate/upgrade_function/ui_route_upgrade.py:60-68 | in a valid table the id found is below the next autoincrement id |
| RouteUpgrade.Created | devops-api/apis/migrate/upgrade_function/ui_route_upgrade.py:87-141 | an existing route changes nothing; otherwise one row with the next id, the parent and old-brother ids looked up and the given ui_route is added |
| RouteUpgrade.FreshId | devops-api/apis/migrate/upgrade_function/ui_route_upgrade.py:109-112 | once the origin names the new row as old brother, the two are linked both ways when they share a parent |
| RouteUpgrade.CreateFirst | devops-api/apis/migrate/upgrade_function/ui_route_upgrade.py:96-112 | inserting first: the new row heads the list and the old head, if any, now follows it; no other row changes |
| RouteUpgrade.CreateLast | devops-api/apis/migrate/upgrade_function/ui_route_upgrade.py:113-125 | inserting last: only the new row is appended |
| RouteUpgrade.CreateMiddle | devops-api/apis/migrate/upgrade_function/ui_route_upgrade.py:126-141 | inserting in the middle: the new row follows its old brother and the row that followed it now follows the new one; no other row changes |
| RouteUpgrade.RelinkedValid | devops-api/apis/migrate/upgrade_function/ui_route_upgrade.py:110-111 | relinking a row to a known id keeps the table valid |
| RouteUpgrade.CreatedValid | devops-api/apis/migrate/upgrade_function/ui_route_upgrade.py:87-141 | creation keeps the ids unique and every link known |
| RouteUpgrade.CreatedOnly | devops-api/apis/migrate/upgrade_function/ui_route_upgrade.py:87-141 | creating a route that is not there leaves it the only route of that name and role, in the last row, with the given ui_route |
| RouteUpgrade.RemoveId | devops-api/apis/migrate/upgrade_function/ui_route_upgrade.py:192-193 | no row with that id remains |
| RouteUpgrade.SetOldBrother | devops-api/apis/migrate/upgrade_function/ui_route_upgrade.py:194-207 | only the row with that id gets the new old_brother |
| RouteUpgrade.RemoveIdUnique | devops-api/apis/migrate/upgrade_function/ui_route_upgrade.py:192-193 | deleting keeps ids unique |
| RouteUpgrade.UnlinkedKeeps | devops-api/apis/migrate/upgrade_function/ui_route_upgrade.py:192-207 | deleting and relinking keeps only rows that were there and keeps the table valid |
| RouteUpgrade.DeleteKeeps | devops-api/apis/migrate/upgrade_function/ui_route_upgrade.py:182-207 | a deletion, even one that raises part way, leaves only old rows and a valid table |
| RouteUpgrade.DeleteEachKeeps | devops-api/apis/migrate/upgrade_function/ui_route_upgrade.py:188-190 | the same for the loop over the children |
| RouteUpgrade.KeptNames | devops-api/apis/migrate/upgrade_function/ui_route_upgrade.py:182-207 | keeping only old rows keeps names unique and gone names gone |
| RouteUpgrade.DeleteMissing | devops-api/apis/migrate/upgrade_function/ui_route_upgrade.py:183-184 | deleting a missing route raises the AttributeError on `None.old_brother` and changes nothing |
| RouteUpgrade.DeleteRelinks | devops-api/apis/migrate/upgrade_function/ui_route_upgrade.py:192-207 | after a deletion the row is gone and its young brother follows the deleted row's old brother |
| RouteUpgrade.DeleteRemoves | devops-api/apis/migrate/upgrade_function/ui_route_upgrade.py:182-207 | after a deletion no route of that name and role is left |
| RouteUpgrade.DeleteEachRemoves | devops-api/apis/migrate/upgrade_function/ui_route_upgrade.py:188-190 | every child deleted is gone |
| RouteUpgrade.DeleteChildrenFirst | devops-api/apis/migrate/upgrade_function/ui_route_upgrade.py:186-190 | the children of the deleted route are gone as well |
| RouteUpgrade.DeleteRoute | devops-api/apis/migrate/upgrade_function/ui_route_upgrade.py:182-207 | a deletion passes only when a route of that name and role exists |
| RouteUpgrade.RouteStore.DeleteUiRouteObject | devops-api/apis/migrate/upgrade_function/ui_route_upgrade.py:182-207 | the table and outcome are those of `DeleteRoute` |
| RouteUpgrade.RouteStore.DeleteChildren | devops-api/apis/migrate/upgrade_function/ui_route_upgrade.py:188-190 | the loop deletes each child as `DeleteEach` specifies |
| RouteUpgrade.RouteStore.Unlink | devops-api/apis/migrate/upgrade_function/ui_route_upgrade.py:192-207 | the row is removed and its young brother relinked as `Unlinked` specifies |
| RouteUpgrade.PutValid | devops-api/apis/migrate/upgrade_function/ui_route_upgrade.py:169-178 | a put keeps the table valid |
| RouteUpgrade.PutInPlace | devops-api/apis/migrate/upgrade_function/ui_route_upgrade.py:174-178 | without parent or old-brother name only the route's ui_route is replaced; a missing route raises |
| RouteUpgrade.PutMoved | devops-api/apis/migrate/upgrade_function/ui_route_upgrade.py:171-173 | with a new place, a successful put leaves exactly one route of that name and role, the last row, with the new ui_route |
| RouteUpgrade.Put | devops-api/apis/migrate/upgrade_function/ui_route_upgrade.py:169-178 | a put passes only on an existing route; without new parent or old-brother name the table keeps its size |
| RouteUpgrade.RouteStore.PutUiRouteObject | devops-api/apis/migrate/upgrade_function/ui_route_upgrade.py:169-178 | the table and outcome are those of `Put` |
| RouteUpgrade.Renamed | devops-api/apis/migrate/upgrade_function/ui_route_upgrade.py:210-217 | the table keeps its size; a missing route changes nothing |
| RouteUpgrade.RenameEffect | devops-api/apis/migrate/upgrade_function/ui_route_upgrade.py:210-217 | the route gets the new name in its column and ui_route, keeps id, role, links and other keys; no other row changes |
| RouteUpgrade.RenamedRowBack | devops-api/apis/migrate/upgrade_function/ui_route_upgrade.py:213-216 | renaming a row back restores it |
| RouteUpgrade.RenameBack | devops-api/apis/migrate/upgrade_function/ui_route_upgrade.py:210-217 | renaming to an unused name and back restores the table |
| RouteUpgrade.RouteStore.RenameUiRoute | devops-api/apis/migrate/upgrade_function/ui_route_upgrade.py:210-217 | the rows become `Renamed` of the old ones |
| RouteUpgrade.RoleOf | devops-api/apis/migrate/upgrade_function/ui_route_upgrade.py:12-15 | no meta or no roles gives ""; an empty roles list raises IndexError; otherwise the first role |
| RouteUpgrade.NameOf | devops-api/apis/migrate/upgrade_function/ui_route_upgrade.py:24-30 | the route's "name" string, and an error exactly when there is none |
| RouteUpgrade.ChildrenOf | devops-api/apis/migrate/upgrade_function/ui_route_upgrade.py:40-45 | the children list of the dict, each smaller than it |
| RouteUpgrade.LookupId | devops-api/apis/migrate/upgrade_function/ui_route_upgrade.py:16-23 | the empty name gives 0 |
| RouteUpgrade.InsertRouteGrows | devops-api/apis/migrate/upgrade_function/ui_route_upgrade.py:11-45 | inserting only appends rows and keeps the table valid |
| RouteUpgrade.InsertChildrenGrows | devops-api/apis/migrate/upgrade_function/ui_route_upgrade.py:40-45 | the same for the loop over the children |
| RouteUpgrade.InsertStoresRoute | devops-api/apis/migrate/upgrade_function/ui_route_upgrade.py:24-39 | a new route is stored with the looked-up parent and old-brother ids and without its "children" key |
| RouteUpgrade.InsertSkipsExisting | devops-api/apis/migrate/upgrade_function/ui_route_upgrade.py:24-25 | an existing route without children changes nothing |
| RouteUpgrade.InsertLinksChildren | devops-api/apis/migrate/upgrade_function/ui_route_upgrade.py:11-45 | on a route with two children the rows are the parent, the first child under it heading the list, and the second child after the first |
| RouteUpgrade.InsertRoute | devops-api/apis/migrate/upgrade_function/ui_route_upgrade.py:11-45 | an insert passes only on a JSON object with a readable role and name |
| RouteUpgrade.RouteStore.AddRow | devops-api/apis/migrate/upgrade_function/ui_route_upgrade.py:29-39 | the state becomes `Added` and the id returned is the old next id |
| RouteUpgrade.RouteStore.CreateUiRouteObject | devops-api/apis/migrate/upgrade_function/ui_route_upgrade.py:87-141 | the state becomes `Created` |
| RouteUpgrade.RouteStore.InsertIntoUiRouteTable | devops-api/apis/migrate/upgrade_function/ui_route_upgrade.py:11-45 | the table and outcome are those of `InsertRoute` |
| RouteUpgrade.RouteStore.InsertChildList | devops-api/apis/migrate/upgrade_function/ui_route_upgrade.py:40-45 | the loop inserts every child as `InsertChildren` specifies |
| StrOrder.Sort | devops-api/apis/model.py:759 | `sorted` of strings: a sorted permutation of the keys |
| StrOrder.SortSorted | devops-api/apis/model.py:759 | sorting a sorted list gives it back |
| StrOrder.SortPermutation | devops-api/apis/model.py:759-772 | two permutations of each other sort to the same list |
| StrOrder.LessTotal | devops-api/apis/model.py:759 | the string order is total |
| PyList.RemoveFirstSplice | devops-api/apis/resources/redis.py:173 | `list.remove` deletes exactly the first occurrence |
| PyList.RemoveFirstMultiset | devops-api/apis/resources/redis.py:173 | `list.remove` of a listed item removes one copy of it |
| PyList.RemoveFirstAppended | devops-api/apis/resources/redis.py:173-188 | removing an item just appended, and absent before, gives the list back |
| PyMath.Mod | devops-api/apis/util.py:303 | Python's `%`: the floor remainder, with the sign of the divisor |
| PyMath.CeilDiv | devops-api/apis/util.py:302-305 | `math.ceil` of a quotient by a positive divisor |
| PyMath.Slice | devops-api/apis/util.py:335 | Python slicing, clamped at the end of the list |
| Strs.IndexOfMeaning | devops-api/apis/resources/redis.py:168 | the first occurrence of the separator, or none at all |
| Strs.SplitJoin | devops-api/apis/resources/redis.py:174-188 | splitting what was joined with a separator absent from the items gives the items back |
| Strs.JoinSplit | devops-api/apis/resources/redis.py:168-174 | joining the parts of a split gives the string back |
| Strs.ParseIntOfNatToString | devops-api/apis/resources/issue.py:322-327 | `int` parses back the decimal text of a natural number |
| Strs.ParseInt | devops-api/apis/resources/issue.py:322-327 | `int()`: a non-empty run of ASCII digits reads as its value, and nothing is read from empty text |
| Strs.ParseIntIgnoresSpace | devops-api/apis/resources/issue.py:322-327 | whitespace around the text does not change what `int()` reads |
| Strs.ParseIntSpaced | devops-api/apis/resources/issue.py:322-327 | " 2" is 2 |
| Strs.ParseIntNewline | devops-api/apis/resources/issue.py:322-327 | "-1\n" is −1 |
| Strs.ParseIntUnderscore | devops-api/apis/resources/issue.py:322-327 | "1_0" is 10 |
| Strs.ParseIntRefuses | devops-api/apis/resources/issue.py:322-327 | doubled, leading or trailing underscores, blank text and a space after the sign are refused |

## Left out

- HTTP handlers, argument parsing, marshmallow schemas and route registration are outside the model. Only the functions they call are modelled.
- Redmine, GitLab, SonarQube, Kubernetes, git, SMTP and the other service clients are not modelled. Their replies are parameters: tracker lists, project members, closed statuses, protected branches, commit lists and pages of issues.
- SQL sessions, commits and queries are not modelled. A table is a sequence of rows, and `.first()` takes rows in sequence order, where the database promises no order.
- Primary keys and unique constraints are not checked. `NotificationMessage.MessageStore.CreateNotificationMessage` appends one recipient row per type id even when an id repeats; the primary key (message_id, type_id) of NotificationMessageRecipient (devops-api/apis/model.py:880-886) makes that commit fail.
- `Tag.TagStore.DeleteTag`: the model writes each stripped list to its row. The source strips the lists of the loaded rows in place and then assigns the same list objects back. Whether the ORM records those assignments as changes and writes them is not modelled, so `Tag.Stripped` is the table the code means to store, not necessarily what reaches the database.
- `Issue.KeywordStep`: the project's users, their plan user ids and the ids of its Redmine versions are given as an `Issue.Directory`. Failures of `user_list_by_project` and `redmine.project.get` themselves are not modelled.
- Redis connections are not modelled. The hash is a `map<string, string>` field.
- Concurrency, threads and socket events are not modelled.
- Floating-point and date/time values are not modelled. Dates are compared as strings where the source does so (`__compare_date_string`). UTC timestamps and `updated_at` columns are left out.
- SHA256, base64, JSON text and YAML files are not modelled as text. Where the source parses them, the model takes the decoded keys or values as parameters; for example `type_parameters` is the set of keys it decodes to.
- Regular expressions are hand-written predicates over ASCII. Python's Unicode-aware `\w` and `\d` are not modelled.
- A database NULL integer is the value -1 (`Model.Null`), which no row id can take.
- `Util.IsDummyProject`: a Python value that is neither an int nor a string (for example a float) is not modelled.
- `Redmine.Paging`: the source loops until a page returns fewer than 100 issues. The model takes the reply of each offset as a function and requires that some page is short, because the source would loop forever otherwise.
- `ProjectRelation`: the parent/child traversals have no cycle guard in the source. The model requires a rank map that makes the relation acyclic, and states nothing about cyclic data.
- `Issue.GetAllSonsIds`: the depth-first walk requires a rank map that makes the family hash acyclic. The source would recurse until Python's recursion limit on a cycle.
- `Router.GetUiRoute`: the recursion into children takes a fuel bound standing for Python's recursion limit. A route tree deeper than the fuel is reported as an error.
- `RouteUpgrade.DeleteRoute`: the recursive deletion is given one call per row and one more. A deeper recursion, which only cyclic `parent` links could cause, is reported as an error.
- `ui_route_first_version` reads route files from disk and is not modelled. `insert_into_ui_route_table`, which it calls once per file entry, is modelled.
- `adjust_ui_router_order` is not part of this model. No core operation calls it.
- `recreate_ui_route`, `alembic_upgrade`, `current_version` and `init` of the migration package do file, shell and database work. The model records which action `upgrade` picks for each version and what `run` applies; it does not perform the actions.
- `Router.UpdateNodeIndex`: `db.session.commit()` is not modelled. The new table is the field after the call.
- `print_list` of the router only prints, and is not modelled.
- `get_upload_file_size` and `get_upload_file_types` only read the stored parameter and are not modelled. The `upload_file_types_handle` decorator, which loads the list, applies the operation and writes the list back, is the class field that each method reads and reassigns.
- `sync_commit_issues_relation` writes commit-to-issue rows to the database. Only its extraction of issue ids from commit titles is modelled.
- `update_tag`, `check_tags`, `get_tags` and `get_tag` of tag.py are not part of this model. They are outside the modelled core.
- Project relation functions other than `get_plan_id`, `get_project_id`, `get_all_fathers_project`, `get_all_sons_project` and `get_root_project_id` are not part of this model.
- `Version`: version ids are compared as their string keys, as the source does with the JSON values. `SortByDate` states that the result is a permutation sorted by key; it does not state that the sort is stable, that is, how versions with equal keys are ordered.
- `Version.VersionListOf`: the dummy-project and not-found branches return a reply the source has already built with `util.success` or `util.respond`, and the views wrap the returned value in `util.success` again. The model marks these replies with their own constructors; the JSON envelopes themselves are not modelled.
- `Gitlab.CommitsByAuthor` follows the code as written: with an author filter it keeps the commits whose author differs from the filter.
- `Model.FirstNode` is modelled as written. The navigation that depends on it (`node_index`) uses the corrected `Model.FirstNodeOfRole`; see Findings.
- `Strs.ParseInt`, `Strs.Lower`, `Strs.Upper`, `Strs.Capitalize` and `Issue.IsDigitString` work on ASCII only. Python's `int()`, `str.isdigit`, `str.strip` and the case mappings also accept non-ASCII digits, whitespace and letters; those are treated as other characters. The inputs they get here (ids, version parts, action names, job statuses) are ASCII in practice.
- `Router.FirstChild` takes the role-aware head of the children (`Model.FirstNodeOfRole`). The source's `get_ui_route` takes `children_nodes[0].first_node`, which ignores the role; the two agree only when every child of a node has its role, which the model does not require.
- `Model.RouteTable.NodeIndex` and `Model.RouteTable.LastNode` report an error when the next_node walk does not end within the table size, that is, on a cycle. The source's `while` loops do not end on such a table.
- `Redmine`: version ids are string keys. The only caller that passes a list of ids (devops-api/apis/resources/release.py:523) sits inside a docstring, so it is dead code; an integer list there would make the `str(...)` lookups miss.
- `NotificationMessage.FilterByUser` follows the code as written, including its duplicate type-5 rows. `NotificationMessage.FilterRowsSameRows` relates it to the corrected filter.

## Findings

| source | as written | input that shows it | evidently intended | confidence | as-written member | corrected member |
|---|---|---|---|---|---|---|
| devops-api/apis/model.py:957-959 | `first_node` filters on parent and `old_brother == 0` but not on role, so `node_index` of a top-level route can start from another role's list | two top-level "dashboard" rows, for roles Administrator (id 1) and Engineer (id 2): the Engineer row's walk starts at row 1 and never reaches it | the head of the node's own role list | not executed | Model.FirstNodeIgnoresRole | Model.HeadIndexOne |
| devops-api/apis/resources/project.py:929-937 | the name check compares `re.findall(...)` with `None`, which it never is, so no name is ever refused | the name "Bad Name" passes | a truthy name that does not match the pattern raises | not executed | Project.NameNeverChecked | Project.FixedCheckMeaning |
| devops-api/apis/resources/notification_message.py:194-198 | the type-5 branch appends the row once per owned project, without the `row not in out_list` guard the other types have | a type-5 row listing projects 7 and 8, both owned by user 42, is returned twice | each visible row appears once | not executed | NotificationMessage.FilterByUserDuplicates | NotificationMessage.FilterRowsFixedMeaning |
