/**
 * monitor_check_rpm.py: read the Copr monitor page of the rpm `%exclude`
 * change rebuild. For every failed build, say in colour whether it is
 * retired, reported, excluded, or failing with or without unpackaged
 * files. Optionally open a bug-report form for the failures nobody tracks
 * yet. End with a count per colour.
 */
module MonitorCheckRpm {
  import opened Wrappers
  import Strings
  import Numbers
  import Bugs
  import Console
  import MonitorParse
  import Monitoring

  /** Where Copr keeps the results of the rebuild. */
  const RESULTS := "https://copr-be.cloud.fedoraproject.org/results/churchyard/rpm-exclude-change/fedora-rawhide-x86_64/"

  /** The table cell the results index has once per RPM file. */
  const RPM_FILE := "<td class='t'>RPM File</td>"

  /** What rpmbuild logs when a package leaves installed files out. */
  const UNPACKAGED := "error: Installed (but unpackaged) file(s) found:"

  /** `' \N{FIRE}'`, appended for a critical-path package. */
  const FIRE := " \U{1F525}"

  /** The package link, the build link, the build state and the trailer of the monitor page. */
  const PAGE := MonitorParse.Page(
    MonitorParse.Pattern("<a href=\"/coprs/churchyard/rpm-exclude-change/package/", '/', "/\">"),
    MonitorParse.Pattern("<a href=\"/coprs/churchyard/rpm-exclude-change/build/", '/', "/\">"),
    MonitorParse.Pattern("<span class=\"build-", '"', "\""),
    "Possible build states:")

  /** What each colour stands for in the summary. */
  const EXPLANATION: map<Console.Colour, string> := map[
    Console.Red := "probably affected by %exclude",
    Console.Blue := "probably not affected by %exclude",
    Console.Yellow := "reported FTBFS bug",
    Console.Green := "retired package",
    Console.Cyan := "excluded from bug filing"]

  /** Failing packages for which no bug is filed, and why. */
  const EXCLUDE: map<string, string> := map["pyxattr" := "fails in Copr only"]

  /** `index_link(package, build)`: the results directory of one build, ending in `/`. */
  function IndexLink(package: string, build: int): (url: string)
    ensures url != [] && url[|url| - 1] == '/'
    ensures build >= 0 ==> Monitoring.ParseResultUrl(RESULTS, "/", url) == Some((build, package))
  {
    Monitoring.ResultUrlRoundTrip(RESULTS, build, package, "/");
    Monitoring.ResultUrl(RESULTS, build, package, "/")
  }

  /** `buildlog_link(package, build)`: the build log inside the results directory. */
  function BuildlogLink(package: string, build: int): (url: string)
    ensures Strings.StartsWith(url, IndexLink(package, build))
    ensures build >= 0 ==> Monitoring.ParseResultUrl(RESULTS, "/build.log.gz", url) == Some((build, package))
  {
    Monitoring.ResultUrlRoundTrip(RESULTS, build, package, "/build.log.gz");
    assert Monitoring.ResultUrl(RESULTS, build, package, "/build.log.gz") == IndexLink(package, build) + "build.log.gz";
    IndexLink(package, build) + "build.log.gz"
  }

  /**
   * `has_unpackaged_files`: the build log holds rpmbuild's unpackaged-files
   * error. A log that does not arrive whole (`None`) counts as not.
   */
  function HasUnpackagedFiles(content: Option<string>): (found: bool)
    ensures found <==> content.Some? && exists i :: 0 <= i <= |content.value| && Strings.StartsWith(content.value[i..], UNPACKAGED)
  {
    content.Some? && Strings.Contains(content.value, UNPACKAGED)
  }

  /** `failed_but_built`: the results index lists more than one RPM file, so the build did produce packages. */
  function FailedButBuilt(index: string): (built: bool)
    ensures built ==> Strings.Contains(index, RPM_FILE)
  {
    Strings.CountPositive(index, RPM_FILE);
    Strings.Count(index, RPM_FILE) > 1
  }

  /**
   * `is_critpath`: the `critical_path` of the first `rpm` record. It is false
   * when there is none (the `ValueError`) or the answer is not JSON (`None`).
   */
  method IsCritpath(answer: Option<seq<Monitoring.PdcResult>>) returns (critical: bool)
    ensures critical <==> Critpath(answer)
  {
    if answer.None? {
      return false;
    }
    critical := Monitoring.CritpathOf(answer.value);
  }

  predicate Critpath(answer: Option<seq<Monitoring.PdcResult>>)
  {
    answer.Some? && Monitoring.FirstRpm(answer.value).Some? && Monitoring.FirstRpm(answer.value).value.criticalPath
  }

  /**
   * What `process` learns from outside: whether koji lists the package as
   * blocked, the package's PDC records, the text of a build log (`None` when
   * it breaks off) and the text of a results index.
   */
  datatype Services = Services(
    retired: string -> bool,
    pdc: string -> Option<seq<Monitoring.PdcResult>>,
    buildlog: string -> Option<string>,
    index: string -> string)

  /** ` bz<id> <status>` for a bug that was found. */
  function BugNote(bz: Option<Bugs.Bug>): string
  {
    match bz
    case None => ""
    case Some(b) => " bz" + Numbers.IntToString(b.id) + " " + b.status
  }

  /** The bug `process` works with: none for an excluded package, else the first one filed against it. */
  function BugFor(bugs: seq<Bugs.Bug>, package: string): Option<Bugs.Bug>
  {
    if package in EXCLUDE then None else Bugs.FirstBug(bugs, package)
  }

  /** The colour and the message tail of a failed, not retired package. */
  function Verdict(bugs: seq<Bugs.Bug>, package: string, unpackaged: bool): (Console.Colour, string)
  {
    if package in EXCLUDE then (Console.Cyan, " (excluded: " + EXCLUDE[package] + ")")
    else
      var bz := Bugs.FirstBug(bugs, package);
      if !Bugs.NeedsReport(bz) then (Console.Yellow, BugNote(bz))
      else if unpackaged then (Console.Red, BugNote(bz) + " with unpackaged files")
      else (Console.Blue, BugNote(bz))
  }

  /** What `process` does for one job: the lines it prints and whether it opens a bug-report form. */
  datatype Outcome = Outcome(echoes: seq<Console.Echo>, fileReport: bool)

  function OutcomeOf(bugs: seq<Bugs.Bug>, job: MonitorParse.Job, services: Services, browser: bool): Outcome
  {
    if job.status != "failed" then Outcome([], false)
    else if services.retired(job.package) then
      Outcome([Console.Echo(job.package + " is retired", Some(Console.Green))], false)
    else
      var unpackaged := HasUnpackagedFiles(services.buildlog(BuildlogLink(job.package, job.build)));
      var (fg, tail) := Verdict(bugs, job.package, unpackaged);
      var message := job.package + " failed" + tail + (if Critpath(services.pdc(job.package)) then FIRE else "");
      var file := browser && Bugs.NeedsReport(BugFor(bugs, job.package)) && job.package !in EXCLUDE
        && !FailedButBuilt(services.index(IndexLink(job.package, job.build)));
      Outcome([Console.Echo(message, Some(fg))], file)
  }

  /**
   * The middle of `process`: the bug it works with, the colour, and what it
   * adds to the message after `<package> failed`.
   */
  method Decide(bugs: seq<Bugs.Bug>, package: string, unpackaged: bool)
    returns (bz: Option<Bugs.Bug>, fg: Console.Colour, tail: string)
    ensures bz == BugFor(bugs, package)
    ensures (fg, tail) == Verdict(bugs, package, unpackaged)
  {
    tail := "";
    if package in EXCLUDE {
      bz := None;
      fg := Console.Cyan;
      tail := tail + " (excluded: " + EXCLUDE[package] + ")";
      assert tail == " (excluded: " + EXCLUDE[package] + ")";
    } else {
      bz := Bugs.FindBug(bugs, package);
      if bz.Some? {
        tail := tail + " bz" + Numbers.IntToString(bz.value.id) + " " + bz.value.status;
      }
      assert tail == BugNote(bz);
      if bz.None? || bz.value.status == "CLOSED" {
        if unpackaged {
          fg := Console.Red;
          tail := tail + " with unpackaged files";
        } else {
          fg := Console.Blue;
        }
      } else {
        fg := Console.Yellow;
      }
    }
  }

  /** `process(...)`: print the line of one job and say whether it opens a bug-report form. */
  method Process(term: Console.Terminal, bugs: seq<Bugs.Bug>, job: MonitorParse.Job, services: Services, browser: bool)
    returns (fileReport: bool)
    requires term.Valid()
    modifies term
    ensures term.Valid()
    ensures term.printed == old(term.printed) + OutcomeOf(bugs, job, services, browser).echoes
    ensures fileReport == OutcomeOf(bugs, job, services, browser).fileReport
  {
    if job.status != "failed" {
      return false;
    }
    var retired := services.retired(job.package);
    if retired {
      term.P(job.package + " is retired", Some(Console.Green));
      return false;
    }
    var critpath := IsCritpath(services.pdc(job.package));
    var message := job.package + " failed";
    var unpackaged := HasUnpackagedFiles(services.buildlog(BuildlogLink(job.package, job.build)));
    var bz, fg, tail := Decide(bugs, job.package, unpackaged);
    message := message + tail;
    if critpath {
      message := message + FIRE;
    } else {
      assert message + "" == message;
    }
    term.P(message, Some(fg));
    fileReport := false;
    if browser && (bz.None? || bz.value.status == "CLOSED") && job.package !in EXCLUDE {
      var built := FailedButBuilt(services.index(IndexLink(job.package, job.build)));
      if !built {
        fileReport := true;
      }
    }
  }

  /** What `process` prints for each job, in job order. */
  function Outcomes(bugs: seq<Bugs.Bug>, jobs: seq<MonitorParse.Job>, services: Services, browser: bool): seq<Console.Echo>
  {
    if jobs == [] then []
    else Outcomes(bugs, jobs[..|jobs| - 1], services, browser) + OutcomeOf(bugs, jobs[|jobs| - 1], services, browser).echoes
  }

  /** The packages a bug-report form is opened for, in job order. */
  function Filed(bugs: seq<Bugs.Bug>, jobs: seq<MonitorParse.Job>, services: Services, browser: bool): seq<string>
  {
    if jobs == [] then []
    else
      var job := jobs[|jobs| - 1];
      Filed(bugs, jobs[..|jobs| - 1], services, browser)
        + (if OutcomeOf(bugs, job, services, browser).fileReport then [job.package] else [])
  }

  /** Every line `process` prints carries a colour, and all five colours have an explanation. */
  lemma {:induction false} OutcomesColoured(bugs: seq<Bugs.Bug>, jobs: seq<MonitorParse.Job>, services: Services, browser: bool)
    ensures forall k :: 0 <= k < |Outcomes(bugs, jobs, services, browser)| ==>
      Outcomes(bugs, jobs, services, browser)[k].fg.Some?
    ensures forall c :: Console.Tally(Outcomes(bugs, jobs, services, browser), c) > 0 ==> c in EXPLANATION
  {
    if jobs != [] {
      OutcomesColoured(bugs, jobs[..|jobs| - 1], services, browser);
    }
    forall c
      ensures Console.Tally(Outcomes(bugs, jobs, services, browser), c) > 0 ==> c in EXPLANATION
    {
      AllExplained();
      Console.TallyWithin(Outcomes(bugs, jobs, services, browser), EXPLANATION, c);
    }
  }

  /** Every colour has an explanation. */
  lemma AllExplained()
    ensures forall c: Console.Colour :: c in EXPLANATION
  {
    forall c: Console.Colour
      ensures c in EXPLANATION
    {
      match c
      case Red =>
      case Blue =>
      case Yellow =>
      case Green =>
      case Cyan =>
    }
  }

  /** All a run prints: the line of every job, an empty line and the summary. */
  function Transcript(bugs: seq<Bugs.Bug>, jobs: seq<MonitorParse.Job>, services: Services, browser: bool): seq<Console.Echo>
  {
    var processed := Outcomes(bugs, jobs, services, browser);
    OutcomesColoured(bugs, jobs, services, browser);
    processed + [Console.Echo("", None)] + Console.Summary(processed, EXPLANATION)
  }

  /**
   * `main(pkgs, open_bug_reports)` after the page and the bugs have arrived:
   * parse the page, keeping only the jobs of `pkgs` when it is not empty,
   * process every job in order (the script runs them concurrently), then
   * print the summary. A parse failure stops the script before any job runs.
   * `unquote` is the URL decoding applied to package names.
   */
  method Run(term: Console.Terminal, rawBugs: seq<Bugs.Bug>, lines: seq<string>, services: Services,
             pkgs: seq<string>, openBugReports: bool, unquote: string -> string)
    returns (r: Result<seq<MonitorParse.Job>, MonitorParse.ParseError>, filed: seq<string>)
    requires term.Valid()
    requires term.printed == []
    modifies term
    ensures term.Valid()
    ensures r == MonitorParse.Scan(MonitorParse.Start(), lines, PAGE, pkgs, unquote)
    ensures pkgs == [] ==> r == MonitorParse.Triples(MonitorParse.Hits(MonitorParse.UntilTrailer(lines, PAGE.trailer), PAGE), unquote)
    ensures r.Failure? ==> term.printed == [] && filed == []
    ensures r.Success? ==> term.printed == Transcript(Bugs.SortByDescendingId(rawBugs), r.value, services, openBugReports)
    ensures r.Success? ==> filed == Filed(Bugs.SortByDescendingId(rawBugs), r.value, services, openBugReports)
  {
    var bugs := Bugs.SortByDescendingId(rawBugs);
    r := MonitorParse.ParseMonitor(lines, PAGE, pkgs, unquote);
    MonitorParse.ParseFindsTriples(lines, PAGE, unquote);
    filed := [];
    if r.Failure? {
      return;
    }
    ghost var processed := Outcomes(bugs, r.value, services, openBugReports);
    filed := ProcessAll(term, bugs, r.value, services, openBugReports);
    assert term.printed == processed;
    OutcomesColoured(bugs, r.value, services, openBugReports);
    term.Summarize(EXPLANATION);
    assert term.printed == processed + [Console.Echo("", None)] + Console.Summary(processed, EXPLANATION);
  }

  /** The jobs of `main`, one `process` after another. */
  method ProcessAll(term: Console.Terminal, bugs: seq<Bugs.Bug>, jobs: seq<MonitorParse.Job>, services: Services, browser: bool)
    returns (filed: seq<string>)
    requires term.Valid()
    modifies term
    ensures term.Valid()
    ensures term.printed == old(term.printed) + Outcomes(bugs, jobs, services, browser)
    ensures filed == Filed(bugs, jobs, services, browser)
  {
    filed := [];
    for i := 0 to |jobs|
      invariant term.Valid()
      invariant term.printed == old(term.printed) + Outcomes(bugs, jobs[..i], services, browser)
      invariant filed == Filed(bugs, jobs[..i], services, browser)
    {
      OutcomesStep(bugs, jobs, i, services, browser, old(term.printed));
      var fileReport := Process(term, bugs, jobs[i], services, browser);
      if fileReport {
        filed := filed + [jobs[i].package];
      } else {
        assert filed + [] == filed;
      }
    }
    assert jobs[..|jobs|] == jobs;
  }

  /** One more job adds its lines and, if it opens a form, its package. */
  lemma OutcomesStep(bugs: seq<Bugs.Bug>, jobs: seq<MonitorParse.Job>, i: nat, services: Services, browser: bool,
                     before: seq<Console.Echo>)
    requires i < |jobs|
    ensures var outcome := OutcomeOf(bugs, jobs[i], services, browser);
      && before + Outcomes(bugs, jobs[..i + 1], services, browser)
        == before + Outcomes(bugs, jobs[..i], services, browser) + outcome.echoes
      && Filed(bugs, jobs[..i + 1], services, browser)
        == Filed(bugs, jobs[..i], services, browser) + (if outcome.fileReport then [jobs[i].package] else [])
  {
    assert jobs[..i + 1][..i] == jobs[..i];
  }

  /** Only failed builds print anything or open a form. */
  lemma NotFailedIsSilent(bugs: seq<Bugs.Bug>, job: MonitorParse.Job, services: Services, browser: bool)
    requires job.status != "failed"
    ensures OutcomeOf(bugs, job, services, browser) == Outcome([], false)
  {
  }

  /** A failed build prints exactly one line; a retired package prints it green and never opens a form. */
  lemma FailedPrintsOneLine(bugs: seq<Bugs.Bug>, job: MonitorParse.Job, services: Services, browser: bool)
    requires job.status == "failed"
    ensures |OutcomeOf(bugs, job, services, browser).echoes| == 1
    ensures services.retired(job.package) ==>
      OutcomeOf(bugs, job, services, browser).echoes[0].fg == Some(Console.Green)
      && !OutcomeOf(bugs, job, services, browser).fileReport
  {
  }

  /**
   * The colour of a failed, not retired package: cyan exactly when it is
   * excluded; otherwise yellow exactly when a bug that is not CLOSED tracks
   * it, and else red or blue as its build log does or does not show
   * unpackaged files.
   */
  lemma ColourRule(bugs: seq<Bugs.Bug>, job: MonitorParse.Job, services: Services, browser: bool)
    requires job.status == "failed" && !services.retired(job.package)
    ensures var fg := OutcomeOf(bugs, job, services, browser).echoes[0].fg.value;
      var excluded := job.package in EXCLUDE;
      var bz := Bugs.FirstBug(bugs, job.package);
      var unpackaged := HasUnpackagedFiles(services.buildlog(BuildlogLink(job.package, job.build)));
      && (fg == Console.Cyan <==> excluded)
      && (fg == Console.Yellow <==> !excluded && !Bugs.NeedsReport(bz))
      && (fg == Console.Red <==> !excluded && Bugs.NeedsReport(bz) && unpackaged)
      && (fg == Console.Blue <==> !excluded && Bugs.NeedsReport(bz) && !unpackaged)
      && fg != Console.Green
  {
  }

  /**
   * A form is opened exactly for a failed, not retired, not excluded package
   * that no open bug tracks, when forms are wanted and the results index
   * does not show more than one RPM file.
   */
  lemma FilingRule(bugs: seq<Bugs.Bug>, job: MonitorParse.Job, services: Services, browser: bool)
    ensures OutcomeOf(bugs, job, services, browser).fileReport <==>
      && job.status == "failed"
      && !services.retired(job.package)
      && browser
      && job.package !in EXCLUDE
      && Bugs.NeedsReport(Bugs.FirstBug(bugs, job.package))
      && Strings.Count(services.index(IndexLink(job.package, job.build)), RPM_FILE) <= 1
  {
  }

  /** Every package a form is opened for is one of the jobs, a failed one whose form is due. */
  lemma {:induction false} FiledAreDue(bugs: seq<Bugs.Bug>, jobs: seq<MonitorParse.Job>, services: Services, browser: bool)
    ensures |Filed(bugs, jobs, services, browser)| <= |jobs|
    ensures browser == false ==> Filed(bugs, jobs, services, browser) == []
    ensures forall p :: p in Filed(bugs, jobs, services, browser) ==>
      exists j :: j in jobs && j.package == p && OutcomeOf(bugs, j, services, browser).fileReport
  {
    if jobs != [] {
      var job := jobs[|jobs| - 1];
      FiledAreDue(bugs, jobs[..|jobs| - 1], services, browser);
      forall p | p in Filed(bugs, jobs, services, browser)
        ensures exists j :: j in jobs && j.package == p && OutcomeOf(bugs, j, services, browser).fileReport
      {
        if p in Filed(bugs, jobs[..|jobs| - 1], services, browser) {
          var j :| j in jobs[..|jobs| - 1] && j.package == p && OutcomeOf(bugs, j, services, browser).fileReport;
          assert j in jobs;
        } else {
          assert job in jobs;
        }
      }
    }
  }
}
