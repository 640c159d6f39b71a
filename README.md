# Packaging-triage scripts of the Python mass rebuild, in Dafny

The scripts of the Fedora Python mass rebuild work by hand through Copr,
Koji, Bugzilla and `repoquery`. Most of their text is I/O. Inside it is a
small deterministic core, and this project models that core:

- RPM version-string surgery: `parse_evr`, `drop_dist`, `drop_0epoch`,
  `bump_release` and `format_obsolete`.
- The `repoquery` command line.
- The rule that prunes old Copr builds, and the batching of their deletion.
- The parser of the Copr monitor page: a three-state `lasthit` machine
  driven by three regular expressions.
- The per-package triage of the monitor scripts: the colour, the message,
  the bug lookup, the filing gate and the colour counter with its summary.
- The set pipelines of `bytecodes.py`, `repo_findold.py`, `remove_closed.py`
  and `file_build_failures.py`.

Every outside answer is a parameter of the model: the Koji, Copr and
`repoquery` output, the Bugzilla bugs, the PDC records, build logs and
result indexes, `rpm.labelCompare`, `rpmdev-vercmp` and `unquote`. The
model states what each script computes from those answers.

## Layout

- `wrappers.dfy`: `Option` and `Result`.
- `strings.dfy`: the Python string methods the scripts use: `partition`,
  `rpartition`, `split`/`join`, `rsplit(c, 2)`, `in`, `count`,
  `split()[0]`, and code-point order.
- `numbers.dfy`: `int()`, `str()` and `{n:08d}`.
- `sorting.dfy`: `sorted()` of a set of strings or integers.
- `bugs.dfy`: the Bugzilla bug record, the descending-id sort and `bug()`.
- `console.dfy`: `p()` with its global `Counter`, `most_common()` and the
  closing summary.
- `monitor_parse.dfy`: the regular expressions and the `lasthit` loop, which
  both monitor scripts share.
- `monitoring.dfy`: result URLs in the Copr backend, and the PDC
  critical-path record.
- One file per script: `monitor_check.dfy`, `monitor_check_rpm.dfy`,
  `copr_delete_old_succeeded.dfy`, `obsolete_packages.dfy`, `bytecodes.dfy`,
  `repo_findold.dfy`, `remove_closed.dfy` and `file_build_failures.dfy`.

Where a script changes state, the model changes state as well:

- `Console.Terminal` holds the counter and the lines printed.
- `CoprDeleteOldSucceeded.Pruner` holds `to_delete` and the batches issued.
- `Bytecodes.Tracker` holds the four sets.
- `RepoFindold.Todo` holds `todo`.
- `FileBuildFailures.Session` holds what was printed and opened.

Their methods are loops proved against recursive specification functions.
Those functions in turn carry lemmas that state the properties the scripts
rely on.

## Model

| member | source | states |
|---|---|---|
| Strings.Partition | copr_delete_old_succeeded.py:48 | `s.partition(c)`: found iff `c` occurs; then `s` is head, `c`, tail, with no `c` in the head; else the head is `s` and the tail empty |
| Strings.RPartition | obsolete_packages.py:66 | `s.rpartition(c)`: found iff `c` occurs; then `s` is head, `c`, tail, with no `c` in the tail; else the head is empty and the tail is `s` |
| Strings.Split | obsolete_packages.py:67 | `s.split(c)`: at least one part, no part holds `c`, and joining the parts with `c` gives `s` back |
| Strings.SplitJoin | obsolete_packages.py:68 | splitting the join of `c`-free parts gives the parts back, so `split` and `join` are inverse |
| Strings.RSplitTwo | repo_findold.py:13 | `s.rsplit(c, 2)` with three parts: `s` is the three parts joined by `c`, the last two `c`-free; absent exactly when `s` has fewer than two `c` |
| Strings.RSplitTwoOf | repo_findold.py:13 | inverse direction: `a+c+b+c+d` with `c`-free `b` and `d` splits into exactly `(a, b, d)` |
| Strings.Contains | monitor_check.py:212 | `sub in s` holds exactly when some position of `s` starts with `sub` |
| Strings.CountPositive | monitor_check_rpm.py:101 | `s.count(sub)` of a non-empty `sub` is positive exactly when `sub in s` |
| Strings.FirstField | bytecodes.py:21 | `s.split()[0]`: absent (the `IndexError`) exactly when `s` is all white space; else a non-empty run without white space |
| Strings.Blanks | bytecodes.py:21 | the leading white space of `s`: every character before it is white space, and the next one, if any, is not |
| Strings.FirstFieldAfterBlanks | bytecodes.py:21 | `s.split()[0]` is exactly the word that starts after the leading white space, and is absent exactly when nothing else is left |
| Strings.Word | bytecodes.py:21 | the first field is a prefix without white space that ends at the end of `s` or before a white-space character |
| Strings.Strip | repo_findold.py:42 | `s.strip()`: a slice of `s` with only white space before and after it, and neither starting nor ending with white space |
| Strings.StripIdempotent | repo_findold.py:42 | stripping twice strips nothing more |
| Strings.LeftJustify | repo_findold.py:42 | `f'{s: <width}'`: `s`, then spaces, `width` characters long, or `s` itself when it is at least that long |
| Strings.StrLtTotal | remove_closed.py:11 | code-point order on strings is total, so `sorted` has one answer |
| Numbers.ParseIntOfIntToString | obsolete_packages.py:85 | `int(str(n)) == n` for every integer |
| Numbers.DigitsValueOfNatToString | obsolete_packages.py:85 | the digits `str(n)` gives for `n >= 0` have the value `n` |
| Numbers.FormatPaddedRoundTrip | monitor_check.py:13 | `{n:08d}` is at least eight characters wide and `int()` reads `n` back from it |
| Sorting.SortedStrings | remove_closed.py:11 | `sorted(set)`: strictly ascending, holding exactly the set's members, one entry per member |
| Sorting.SortedInts | copr_delete_old_succeeded.py:77 | `sorted(ids)`: strictly ascending, holding exactly the set's ids, one entry per id |
| Sorting.IncreasingUnique | remove_closed.py:11 | two strictly ascending sequences with the same members are equal, so the sorted output is determined by the set |
| Bugs.SortByDescendingId | file_build_failures.py:18 | `sorted(bugs, key=-id)`: ids never increase along the result, which is a permutation of the bugs |
| Bugs.FindBug | file_build_failures.py:21-25 | the loop of `bug()` returns what `FirstBug` describes |
| Bugs.FirstBugIsFirstMatch | monitor_check_rpm.py:147-151 | `bug()` finds nothing exactly when no bug's component is the package; otherwise it finds the earliest bug whose component is the package |
| Bugs.FirstBugIsNewest | monitor_check.py:35-39 | on the bugs sorted by descending id, the bug found for a package is one of its bugs and has the highest id among them |
| Console.Terminal.P | monitor_check.py:108-111 | `p()` appends the line; with a colour it adds one to that colour's count and leaves the others alone; without one the counter is unchanged; the counter stays the tally of the lines printed |
| Console.CountsOfTally | monitor_check_rpm.py:157-160 | the counter of a colour is the number of lines printed in that colour |
| Console.MostCommon | monitor_check.py:221 | `most_common()`: counts never increase along the result, which holds each key once |
| Console.Appearance | monitor_check_rpm.py:311 | the keys of the counter: distinct, and exactly the colours with a positive count |
| Console.Terminal.Summarize | monitor_check.py:220-223 | the end of `main`: an empty line, then one `There are <n> <colour> lines (<explanation>)` line per counted colour, most common first, each coloured and counted |
| Console.CountedAreExplained | monitor_check.py:222 | every colour `most_common()` yields has been counted and has an explanation, so `EXPLANATION[fg]` never fails |
| MonitorParse.SearchIsLeftmost | monitor_check.py:15-17 | `search` of `prefix([^x]+)suffix` finds nothing exactly when no position starts a match; otherwise its group belongs to the leftmost match |
| MonitorParse.MatchHereExact | monitor_check_rpm.py:19-21 | at a given position the match and its group are unique, since the suffix begins with the excluded character |
| MonitorParse.ParseMonitor | monitor_check_rpm.py:271-303 | the loop over the page lines, with its `lasthit`, `package`, `build` and `jobs` variables, returns what `Scan` defines: the jobs, or the first failing assertion or `int()` |
| MonitorParse.AdvanceAppend | monitor_check.py:190-210 | feeding two runs of hits one after the other is feeding their concatenation, and a failure in the first run ends it |
| MonitorParse.ParseFindsTriples | monitor_check.py:186-213 | without a package filter the loop yields exactly the jobs of the hits up to the trailer line, read as package, build, status triples; it fails exactly where that reading finds a hit out of order or a bad build id |
| MonitorParse.AdvanceIsTriples | monitor_check.py:193-207 | from a cursor after a status, feeding hits is the same as reading them in package, build, status triples |
| MonitorParse.UntilTrailer | monitor_check.py:212-213 | the lines read: a prefix of the page that ends at the first line holding the trailer, or the whole page |
| MonitorParse.ParseWithFilter | monitor_check_rpm.py:276-303 | on a page whose trailer line holds no build state, the filtered loop yields the jobs of the hits up to the trailer line, read in package, build, status triples, minus those of packages not asked for; it fails exactly where that reading fails |
| MonitorParse.ScanFiltered | monitor_check_rpm.py:288-303 | from matching cursors, on lines whose trailer line holds no build state, the filtered loop keeps exactly the jobs of packages asked for, stops at the same line, and fails exactly where the unfiltered loop fails |
| MonitorParse.StepFiltered | monitor_check_rpm.py:288-303 | one pass of the filtered loop is the unfiltered pass with the unwanted job dropped, and breaks alike, unless a build state and the trailer share the line |
| MonitorParse.Kept | monitor_check_rpm.py:293 | a job is kept exactly when its package is asked for, or when no package was named |
| MonitorParse.SkippedStatusIgnoresTrailer | monitor_check_rpm.py:293-303 | a build-state hit of a skipped package adds no job, and the loop goes on to the next line even when this line holds the trailer |
| Monitoring.ResultUrlRoundTrip | monitor_check_rpm.py:17 | the zero-padded build field is at least 8 wide, and the result URL of a build `>= 0` gives back the build and the package |
| Monitoring.FirstRpmIsFirst | monitor_check.py:90-92 | the first `rpm` record is the earliest one whose type is `rpm`, and there is none exactly when no record has that type |
| Monitoring.CritpathOf | monitor_check.py:88-95 | the loop of `is_critpath` returns the `critical_path` of the first `rpm` record, and false when the loop ends without one |
| MonitorCheck.BuildlogLink | monitor_check.py:67-68 | the build-log URL names the build and the package, which can be read back from it when the build is `>= 0` |
| MonitorCheck.Process | monitor_check.py:114-141 | `process` prints exactly the lines `Outcome` says, with `p`, and keeps the counter the tally of the lines |
| MonitorCheck.FailedLine | monitor_check.py:124-140 | the message and colour of a failed package that is not retired are those of `Outcome` |
| MonitorCheck.BugVerdict | monitor_check.py:131-137 | the bug note is ` bz<id> <status>` for a found bug and empty otherwise; the colour is that of `Colour` |
| MonitorCheck.OneLinePerFailure | monitor_check.py:115-141 | a job prints nothing exactly when its status is not `failed`; a failed job prints exactly one line |
| MonitorCheck.ColourRule | monitor_check.py:118-137 | a failed job is green exactly when retired; otherwise it is yellow exactly when a bug that is not CLOSED is found; red exactly when none is found and the log is longer than 1000 bytes; blue exactly when none is found and it is not |
| MonitorCheck.OutcomesTallyExplained | monitor_check.py:221-222 | every colour the jobs print in has an entry in `EXPLANATION` |
| MonitorCheck.Run | monitor_check.py:186-223 | the jobs are the page's triples up to the trailer; a parse failure prints nothing; otherwise the output is every job's line, in job order, then the empty line and the summary |
| MonitorCheckRpm.IndexLink | monitor_check_rpm.py:109-110 | the index URL ends in `/` and, for a build `>= 0`, gives back the build and the package |
| MonitorCheckRpm.BuildlogLink | monitor_check_rpm.py:113-114 | the build-log URL extends the index URL and, for a build `>= 0`, gives back the build and the package |
| MonitorCheckRpm.HasUnpackagedFiles | monitor_check_rpm.py:77-83 | true exactly when a log arrived and holds rpmbuild's unpackaged-files message somewhere |
| MonitorCheckRpm.FailedButBuilt | monitor_check_rpm.py:101-102 | more than one `RPM File` cell in the index, so the index holds that cell |
| MonitorCheckRpm.IsCritpath | monitor_check_rpm.py:134-144 | the `critical_path` of the first `rpm` record; false without one or without a JSON answer |
| MonitorCheckRpm.Decide | monitor_check_rpm.py:182-197 | the branch of `process` computes the bug, colour and message tail that `BugFor` and `Verdict` define |
| MonitorCheckRpm.Process | monitor_check_rpm.py:163-209 | `process` prints the lines, and decides on the form, that `OutcomeOf` gives |
| MonitorCheckRpm.NotFailedIsSilent | monitor_check_rpm.py:167-168 | a job whose status is not `failed` prints nothing and opens no form |
| MonitorCheckRpm.FailedPrintsOneLine | monitor_check_rpm.py:170-174 | a failed job prints exactly one line; a retired package prints it green and opens no form |
| MonitorCheckRpm.ColourRule | monitor_check_rpm.py:182-197 | a failed package that is not retired is cyan exactly when excluded; otherwise yellow exactly when a bug that is not CLOSED is found; red exactly when none is and the log shows unpackaged files; blue exactly when none is and it does not; never green |
| MonitorCheckRpm.FilingRule | monitor_check_rpm.py:203-209 | a form is opened exactly when the job failed, the package is not retired, forms are wanted, the package is not excluded, no bug or a CLOSED one is found, and the index has at most one `RPM File` cell |
| MonitorCheckRpm.FiledAreDue | monitor_check_rpm.py:203-209 | each package a form is opened for is that of a failed job whose form is due; nothing is opened without `--open-bug-reports` |
| MonitorCheckRpm.OutcomesColoured | monitor_check_rpm.py:311-313 | every job line carries a colour, and every colour counted has an entry in `EXPLANATION` |
| MonitorCheckRpm.ProcessAll | monitor_check_rpm.py:295-306 | processing the jobs in order prints their lines and opens their forms, in job order |
| MonitorCheckRpm.Run | monitor_check_rpm.py:251-313 | the jobs are those of the filtered loop (the triples up to the trailer when no package is named); a parse failure prints and opens nothing; otherwise every job's line in order, the empty line and the summary, and the forms of the jobs that need one |
| CoprDeleteOldSucceeded.ParseEvr | copr_delete_old_succeeded.py:20-25 | the epoch is the text before the last `:`, or none when there is no `:` or that text is empty; the rest splits at its last `-` into version and release, or gives an empty version and the whole rest when it has no `-` |
| CoprDeleteOldSucceeded.ParseEvrRoundTrip | copr_delete_old_succeeded.py:20-25 | `e:v-r` with a non-empty epoch, no `:` in `v` or `r` and no `-` in `r` parses to `(e, v, r)` |
| CoprDeleteOldSucceeded.DropDist | copr_delete_old_succeeded.py:13-17 | the last `.` field of the whole string is dropped exactly when the parsed release holds `.fc`; otherwise the string is unchanged |
| CoprDeleteOldSucceeded.Succeeded | copr_delete_old_succeeded.py:46-48 | exactly the builds whose state is `succeeded` in the project's directory |
| CoprDeleteOldSucceeded.VersionsOf | copr_delete_old_succeeded.py:54-55 | the version dictionary has a key exactly for the ids of the succeeded builds |
| CoprDeleteOldSucceeded.VersionsOfLastWins | copr_delete_old_succeeded.py:54-55 | the version of an id is that of the last succeeded build with that id, with the dist dropped |
| CoprDeleteOldSucceeded.Newest | copr_delete_old_succeeded.py:57 | the newest build is the highest id |
| CoprDeleteOldSucceeded.DoomedRule | copr_delete_old_succeeded.py:57-65 | an id is scheduled exactly when it is a succeeded build's id below the highest, and `labelCompare(newest, it)` is 0 or -1; the newest is never scheduled |
| CoprDeleteOldSucceeded.ChosenRule | copr_delete_old_succeeded.py:57-65 | for one version dictionary, an id is chosen exactly when it is below the newest and `labelCompare` gives 0 or -1; the newest never is |
| CoprDeleteOldSucceeded.SucceededIds | copr_delete_old_succeeded.py:46-55 | the ids considered are exactly the ids of succeeded builds in the project's directory |
| CoprDeleteOldSucceeded.DeleteCommand | copr_delete_old_succeeded.py:77-79 | `copr delete-build` followed by one argument per id, each reading back as that id |
| CoprDeleteOldSucceeded.FlattenedHas | copr_delete_old_succeeded.py:77-79 | an id has been deleted exactly when some batch holds it |
| CoprDeleteOldSucceeded.Pruner.DeleteBuilds | copr_delete_old_succeeded.py:74-79 | unforced and under `BATCH_SIZE`: nothing happens; otherwise all pending ids go out in ascending order and the set is emptied |
| CoprDeleteOldSucceeded.Pruner.ProcessPackage | copr_delete_old_succeeded.py:40-71 | the package's scheduled ids are added; when that fills a batch, the whole pending set goes out sorted and the set is emptied |
| CoprDeleteOldSucceeded.DoomedIds | copr_delete_old_succeeded.py:54-65 | the ids the loop schedules for a package with succeeded builds are those `Doomed` defines |
| CoprDeleteOldSucceeded.ChooseAll | copr_delete_old_succeeded.py:62-65 | the loop over the other builds picks exactly those that go, whatever the order of the visit |
| CoprDeleteOldSucceeded.Reached | copr_delete_old_succeeded.py:96-109 | the packages processed: every one before the first whose `copr get-package` fails, and none after it |
| CoprDeleteOldSucceeded.ProcessPackages | copr_delete_old_succeeded.py:104-109 | the loop stops at the first package whose `copr get-package` fails, and reports it; after each package, the batches issued and the pending ids together are the ids scheduled so far; batches are whole, sorted and not empty; fewer than `BATCH_SIZE` ids wait |
| CoprDeleteOldSucceeded.ProgressStep | copr_delete_old_succeeded.py:62-71 | one package keeps that invariant |
| CoprDeleteOldSucceeded.Run | copr_delete_old_succeeded.py:96-112 | a failing `copr list-packages` deletes nothing; otherwise, with the forced flush of the `finally`, every scheduled id of every package processed is deleted, and nothing else, also when a `copr get-package` fails and stops the run; batches are ascending and not empty, and all but the last are whole |
| ObsoletePackages.RepoqueryCommand | obsolete_packages.py:5-18 | the command built step by step with `append`/`extend` is `Command` |
| ObsoletePackages.AppendOptions | obsolete_packages.py:15-18 | the keyword loop appends `--<key>` for each option, and its value unless it is `True` |
| ObsoletePackages.CommandLayout | obsolete_packages.py:6-18 | the command starts with `repoquery`, then `--repo=rawhide` or the four release flags, then the positional arguments unchanged; the rest reads back as the keyword options |
| ObsoletePackages.OptionWordsRoundTrip | obsolete_packages.py:15-18 | when no value starts with `--`, the option words read back as the options, so the step is inverse |
| ObsoletePackages.OldPkgs | obsolete_packages.py:27-34 | a name is old exactly when some release and some Python 3.7 dependency query lists it |
| ObsoletePackages.RemovedPkgs | obsolete_packages.py:37-40 | removed packages are exactly the old ones that rawhide no longer lists |
| ObsoletePackages.Undist | obsolete_packages.py:67 | the kept release parts are exactly those not starting with `fc`, and no more than there were |
| ObsoletePackages.UndistOne | obsolete_packages.py:67 | one part is kept exactly when it does not start with `fc` |
| ObsoletePackages.UndistAppend | obsolete_packages.py:67-68 | the parts kept of `a + b` are those kept of `a`, then those kept of `b`; with `UndistOne`, the kept parts are in their original order |
| ObsoletePackages.UndistIdempotent | obsolete_packages.py:67 | filtering the parts twice is filtering them once |
| ObsoletePackages.DropDistRule | obsolete_packages.py:65-69 | `drop_dist` keeps the text before the last `-`; the new release splits into exactly `Undist` of the release parts, which keeps their order (`UndistAppend`); doing it twice is doing it once |
| ObsoletePackages.DropZeroEpoch | obsolete_packages.py:72-74 | the text after the first `:` exactly when the text before it is `0` (the empty string for `0` itself); otherwise the input |
| ObsoletePackages.ZeroEpochCut | obsolete_packages.py:73-74 | the same rule in terms of `partition(':')` |
| ObsoletePackages.LeadingZeros | obsolete_packages.py:81-83 | the leading parts that are `0`, up to the first that is not |
| ObsoletePackages.BumpLoop | obsolete_packages.py:80-89 | the loop with its early return computes what `BumpParts` defines |
| ObsoletePackages.BumpRelease | obsolete_packages.py:77-89 | `bump_release` computes what `Bump` defines, with its two errors |
| ObsoletePackages.BumpPartsRule | obsolete_packages.py:80-89 | no part can be bumped exactly when all are `0`; a bad part is the first non-`0` one and is no integer; else the leading `0` parts are kept, the next part becomes its value plus one, and later parts are dropped |
| ObsoletePackages.BumpRule | obsolete_packages.py:77-89 | `Cannot bump` exactly when every release part is `0`; on success the text before the last `-` is kept and the new release splits into the bumped parts |
| ObsoletePackages.FormatObsolete | obsolete_packages.py:92-94 | `%obsolete <pkg> <bumped evr>`, failing exactly when the bump fails, with its error |
| ObsoletePackages.ReportOne | obsolete_packages.py:98-104 | the loop body for one package computes `ReportOf` |
| ObsoletePackages.ReportOfRule | obsolete_packages.py:98-104 | the `%obsolete` line goes to standard output exactly when nothing, or only `fedora-obsolete-packages`, obsoletes the version; failing bumps stop the loop only then |
| ObsoletePackages.ReportAll | obsolete_packages.py:97-104 | the loop over the removed packages computes `Reports` |
| ObsoletePackages.ReportsShape | obsolete_packages.py:97-104 | one line per package in order until the first failing one, whose error ends the loop |
| ObsoletePackages.ReportsRule | obsolete_packages.py:97-104 | each line printed fits its package's obsoleter rule; an error stops at a package whose line was due and whose bump failed |
| ObsoletePackages.Run | obsolete_packages.py:97-104 | the removed set is the old names not listed in rawhide, and the lines are the reports for them in name order |
| RemoveClosed.Remaining | remove_closed.py:8-11 | the new lines are ascending, distinct, and exactly the original lines that are not closed |
| RemoveClosed.OutputLines | remove_closed.py:11 | the output ends in a newline; it is `"\n"` exactly when no line remains, or only the empty line; otherwise it splits back into the remaining lines |
| RemoveClosed.JoinNotEmpty | remove_closed.py:11 | joining lines gives the empty text only for the single empty line |
| FileBuildFailures.Session.FileAll | file_build_failures.py:70-75 | the loop logs, for each package in list order, what `Transcript` says |
| FileBuildFailures.TranscriptRule | file_build_failures.py:70-75 | forms are opened for exactly the packages needing a report, and lines printed for exactly the packages with a bug, both in list order |
| FileBuildFailures.ActionsForRule | file_build_failures.py:72-75 | one package prints its bug line exactly when a bug is found, and opens a form exactly when none is found or it is CLOSED |
| FileBuildFailures.NeedingReportRule | file_build_failures.py:74-75 | a package needs a report exactly when it is in the list and its bug is missing or CLOSED |
| FileBuildFailures.FilingRule | file_build_failures.py:70-75 | a form is opened for a listed package exactly when no bug exists for it or its newest bug is CLOSED; the bug found is one of its bugs with the highest id |
| FileBuildFailures.SplitActions | file_build_failures.py:70 | the filed and printed parts of two runs of actions are those of the first, then those of the second |
| FileBuildFailures.Run | file_build_failures.py:65-75 | the whole run is the transcript over the bugs sorted by descending id |
| Bytecodes.DropTwoIsRSplit | bytecodes.py:31-32 | dropping the last two fields is `rsplit(c, 2)[0]` with two separators, and the empty string otherwise |
| Bytecodes.NamesOfPackage | bytecodes.py:31-32 | `<name>-<version>-<release>.<arch>.rpm`, with the usual dash- and dot-free parts, gives `<name>-<version>-<release>` as NEVR and `<name>` as name |
| Bytecodes.FieldsRule | bytecodes.py:19-21 | `after` fails exactly when a non-empty line is blank; otherwise a name is listed exactly when it is the first field of some non-empty line |
| Bytecodes.Initial | bytecodes.py:8-16 | `done` holds exactly the saved names (none without a saved file), the other sets are empty, `processed` is their union |
| Bytecodes.StepRule | bytecodes.py:30-42 | a processed name is skipped without a query; a new name goes into `done`, `inspection` or `torebuild` exactly as the late and early queries list its NEVR, becomes processed, and nothing else changes; the pass fails exactly when a query it makes answers with a blank line |
| Bytecodes.StepConsistent | bytecodes.py:33-42 | a pass keeps `processed` the union of three pairwise disjoint sets, and only adds to the sets |
| Bytecodes.LoopConsistent | bytecodes.py:30-42 | so does the whole loop |
| Bytecodes.LoopStops | bytecodes.py:30-42 | a failing pass ends the loop with the sets as they were before it |
| Bytecodes.LoopCovers | bytecodes.py:30-42 | without a failure, the names processed afterwards are those processed before and the names of all package lines |
| Bytecodes.Tracker.constructor | bytecodes.py:8-16 | the sets start as `Initial` says |
| Bytecodes.Tracker.ProcessAll | bytecodes.py:28-42 | the loop that updates the four sets in place ends in the state, and with the failure, that `Loop` gives |
| Bytecodes.ProcessedCount | bytecodes.py:46-49 | the processed count printed is the sum of the three other counts |
| Bytecodes.SaveRule | bytecodes.py:51-54 | the saved lists are sorted, every processed name is in exactly one of them, and nothing else is |
| Bytecodes.Run | bytecodes.py:8-54 | a failing query ends the run with nothing printed or saved; otherwise the messages and the saved lists are those of the sets after the loop |
| RepoFindold.NameVersion | repo_findold.py:13-14 | the name, `-`, and the `version-release` value give the entry back; entries without two `-` are refused |
| RepoFindold.NameVersionRule | repo_findold.py:13-14 | `<name>-<version>-<release>` with dash-free version and release splits into `<name>` and `<version>-<release>` |
| RepoFindold.NameVersionFails | repo_findold.py:13-14 | an entry is refused exactly when it has fewer than two `-`; an accepted value is two dash-free parts joined by one `-` |
| RepoFindold.DictFails | repo_findold.py:13-14 | building a dictionary fails exactly when some entry does not split, naming the first one |
| RepoFindold.DictLastWins | repo_findold.py:13-14 | the keys are exactly the names of the entries, and each value is that of the last entry with that name |
| RepoFindold.DictReconstructs | repo_findold.py:13-14 | every key, `-`, and its value give back one of the entries |
| RepoFindold.TasksRule | repo_findold.py:21-24 | the loop fails exactly when a package with a Python 3.9 entry has no Koji entry, at the first such package; otherwise there is one task for each package with a Python 3.9 entry, holding both versions |
| RepoFindold.TasksInOrder | repo_findold.py:21 | for sorted packages the tasks come sorted by name |
| RepoFindold.CollectTasks | repo_findold.py:21-24 | the loop over `sorted(python38)` collects what `Tasks` defines |
| RepoFindold.ComparisonLineLayout | repo_findold.py:42 | the line `compare` prints is the package name, spaces up to column 30 and at least one, then the stripped output of `rpmdev-vercmp` |
| RepoFindold.ComparisonLinesRule | repo_findold.py:21-25 | one comparison line per task, in task order |
| RepoFindold.Todo.Compare | repo_findold.py:33-47 | `compare` prints its comparison line, and adds the package to `todo` exactly when `rpmdev-vercmp` exits with 11 |
| RepoFindold.Todo.Gather | repo_findold.py:25 | running all comparisons prints their lines in task order and adds exactly the names `Older` defines |
| RepoFindold.TodoRule | repo_findold.py:21-25 | `todo` holds exactly the Python 3.8 packages with entries in both dictionaries whose comparison exits with 11, so it lies within python38 and the Python 3.9 keys |
| RepoFindold.Report | repo_findold.py:29-30 | the names are printed ascending, each once, and they are exactly `todo` |
| RepoFindold.Run | repo_findold.py:7-30 | an exception from the dictionaries or the loop stops the script before any comparison; otherwise it prints one line per comparison, in task order, then an empty line and the sorted names whose comparison exits with 11 |

## Left out

- I/O: HTTP requests, `koji`, `copr` and `repoquery` subprocesses, the Bugzilla query, reading and writing files and JSON. Their results are parameters (`Services`, `Koji`, `details`, `repoquery`, the bug list, the page lines, the saved list).
- `fetch`'s sleep-and-retry, `length`, `time.sleep`, logging and `asyncio_ssl_error_filter`: I/O and interpreter details.
- Concurrency: semaphores, `gather_or_cancel`, `ensure_future` and the browser lock. Jobs, packages and comparisons run one after another in their list order. The scripts may interleave them. Without a failure, only the order of the printed lines and of the batch flushes depends on that.
- Concurrency in copr_delete_old_succeeded.py: when a `copr get-package` fails, the model has processed exactly the packages before it. In the script, `gather_or_cancel` cancels the tasks still running, so which other packages had already added their ids depends on the interleaving.
- Other failures in copr_delete_old_succeeded.py are not modelled: a failing `copr delete-build` (its exit status is not checked) and malformed JSON.
- `KojiError` and `sys.exit`: a failure of the `koji` command is not modelled. `is_retired` is an oracle.
- `rpm.labelCompare`, `rpmdev-vercmp` and `newest_version` with `SortableEVR` are oracles. None of them is modelled as a version comparison.
- `open_bz` in both scripts: the report form's text, `urlencode`, `dedent` and `webbrowser.open`. A form being opened is an action naming the package.
- `failed_but_built.lst`: the append of the index URL is not modelled.
- `--blues-file` and `LIMIT` in monitor_check_rpm.py: neither is used by the code shown.
- `secho` colouring and the choice of stderr or stdout. A printed line is a text with an optional colour.
- The `Could not check ...` message of `is_critpath`, and the lines `compare` writes to stderr: not modelled.
- The progress prints: `Checking <pkg>`, `Newest ... is ...`, `Will delete ...` and the empty line in copr_delete_old_succeeded.py; `Getting bugzillas...` in file_build_failures.py; the `progressbar` item display in bytecodes.py.
- `KeyboardInterrupt` in bytecodes.py: the interrupted loop is not modelled. A missing saved file and one without `done` both arrive as `saved == None`.
- `int()`: modelled as an optional sign and ASCII digits. Python also accepts surrounding white space, underscores and non-ASCII digits, which the model refuses.
- `unquote` is an opaque function parameter.
- `splitlines`: the page, `repoquery` and Koji outputs arrive as sequences of lines.
- `str.isspace` is written out for the code points Python counts as white space.
- The regular-expression engine: the three expressions `prefix([^x]+)suffix` are modelled by a leftmost-match search. Their suffix begins with `x`, so the group at a position is unique.
- Set and dictionary iteration order: where it matters (the last entry with a name wins in repo_findold.py's dictionaries), the entries arrive as a given sequence.
- The page's `package`, `build` and `status` start as `None` in the scripts. The state machine sets them before any use, so the model starts them at `""` and `0`.
- RemoveClosed.OutputLines: the output is `"\n"` when no line remains, as expected, and also when the only remaining line is the empty one. The model states the code's behaviour.
- Console.MostCommon: the contract states the order by count, but not the order in which keys of equal count come, which Python's stable sort fixes as the order the counter acquired them.
- The click command line of monitor_check_rpm.py: `pkgs` and `open_bug_reports` are parameters of `Run`.
