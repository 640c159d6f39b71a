/**
 * monitor_check.py: read the Copr monitor page of the python3.8 rebuild.
 * For every failed build, say in colour whether it is retired, reported,
 * presumably failing to build from source (a long build log) or presumably
 * blocked (a short one), and end with a count per colour.
 */
module MonitorCheck {
  import opened Wrappers
  import Numbers
  import Bugs
  import Console
  import MonitorParse
  import Monitoring

  /** Where Copr keeps the results of the python3.8 rebuild. */
  const RESULTS := "https://copr-be.cloud.fedoraproject.org/results/@python/python3.8/fedora-rawhide-x86_64/"

  /** A build log longer than this many bytes means the build got far: probably a build failure. */
  const LIMIT := 1000

  /** `' \N{FIRE}'`, appended for a critical-path package. */
  const FIRE := " \U{1F525}"

  /** The package link, the build link, the build state and the trailer of the monitor page. */
  const PAGE := MonitorParse.Page(
    MonitorParse.Pattern("<a href=\"/coprs/g/python/python3.8/package/", '/', "/\">"),
    MonitorParse.Pattern("<a href=\"/coprs/g/python/python3.8/build/", '/', "/\">"),
    MonitorParse.Pattern("<span class=\"build-", '"', "\""),
    "Possible build states:")

  /** What each colour stands for in the summary. */
  const EXPLANATION: map<Console.Colour, string> := map[
    Console.Red := "probably FTBFS",
    Console.Blue := "probably blocked",
    Console.Yellow := "reported",
    Console.Green := "retired"]

  /** `buildlog_link(package, build)`: the build log of one build; the URL gives back the build and the package. */
  function BuildlogLink(package: string, build: int): (url: string)
    ensures build >= 0 ==> Monitoring.ParseResultUrl(RESULTS, "/build.log.gz", url) == Some((build, package))
  {
    Monitoring.ResultUrlRoundTrip(RESULTS, build, package, "/build.log.gz");
    Monitoring.ResultUrl(RESULTS, build, package, "/build.log.gz")
  }

  /**
   * What `process` learns from outside: whether koji lists the package as
   * blocked, the `content-length` of a URL, and the package's PDC records.
   */
  datatype Services = Services(
    retired: string -> bool,
    contentLength: string -> int,
    pdc: string -> seq<Monitoring.PdcResult>)

  /** ` bz<id> <status>` for a bug that was found. */
  function BugNote(bz: Option<Bugs.Bug>): string
  {
    match bz
    case None => ""
    case Some(b) => " bz" + Numbers.IntToString(b.id) + " " + b.status
  }

  /** The colour of a failed, not retired package. */
  function Colour(bz: Option<Bugs.Bug>, contentLength: int): Console.Colour
  {
    if Bugs.NeedsReport(bz) then (if contentLength > LIMIT then Console.Red else Console.Blue)
    else Console.Yellow
  }

  /** Whether the first `rpm` record says the package is on the critical path. */
  predicate Critpath(results: seq<Monitoring.PdcResult>)
  {
    Monitoring.FirstRpm(results).Some? && Monitoring.FirstRpm(results).value.criticalPath
  }

  /** What `process` prints for one job: nothing, or one coloured line. */
  function Outcome(bugs: seq<Bugs.Bug>, job: MonitorParse.Job, services: Services): seq<Console.Echo>
  {
    if job.status != "failed" then []
    else if services.retired(job.package) then [Console.Echo(job.package + " is retired", Some(Console.Green))]
    else
      var contentLength := services.contentLength(BuildlogLink(job.package, job.build));
      var bz := Bugs.FirstBug(bugs, job.package);
      var message := job.package + " failed len=" + Numbers.IntToString(contentLength) + BugNote(bz)
        + (if Critpath(services.pdc(job.package)) then FIRE else "");
      [Console.Echo(message, Some(Colour(bz, contentLength)))]
  }

  /** `process(...)`: decide and print the line of one job. */
  method Process(term: Console.Terminal, bugs: seq<Bugs.Bug>, job: MonitorParse.Job, services: Services)
    requires term.Valid()
    modifies term
    ensures term.Valid()
    ensures term.printed == old(term.printed) + Outcome(bugs, job, services)
  {
    if job.status != "failed" {
      return;
    }
    var retired := services.retired(job.package);
    if retired {
      term.P(job.package + " is retired", Some(Console.Green));
      return;
    }
    var message, fg := FailedLine(bugs, job, services);
    term.P(message, Some(fg));
  }

  /** The message and colour `process` computes for a failed package that is not retired. */
  method FailedLine(bugs: seq<Bugs.Bug>, job: MonitorParse.Job, services: Services) returns (message: string, fg: Console.Colour)
    requires job.status == "failed" && !services.retired(job.package)
    ensures Outcome(bugs, job, services) == [Console.Echo(message, Some(fg))]
  {
    var contentLength := services.contentLength(BuildlogLink(job.package, job.build));
    var critpath := Monitoring.CritpathOf(services.pdc(job.package));
    var bz := Bugs.FindBug(bugs, job.package);
    var note;
    note, fg := BugVerdict(bz, contentLength);
    message := job.package + " failed len=" + Numbers.IntToString(contentLength) + note;
    if critpath {
      message := message + FIRE;
    } else {
      assert message + "" == message;
    }
  }

  /** The bug part of the message of a failed package, and its colour. */
  method BugVerdict(bz: Option<Bugs.Bug>, contentLength: int) returns (note: string, fg: Console.Colour)
    ensures note == BugNote(bz) && fg == Colour(bz, contentLength)
  {
    note := "";
    if bz.Some? {
      note := " bz" + Numbers.IntToString(bz.value.id) + " " + bz.value.status;
      fg := Console.Yellow;
    }
    if bz.None? || bz.value.status == "CLOSED" {
      fg := if contentLength > LIMIT then Console.Red else Console.Blue;
    }
  }

  /** What `process` prints for each job, in job order. */
  function Outcomes(bugs: seq<Bugs.Bug>, jobs: seq<MonitorParse.Job>, services: Services): seq<Console.Echo>
  {
    if jobs == [] then []
    else Outcomes(bugs, jobs[..|jobs| - 1], services) + Outcome(bugs, jobs[|jobs| - 1], services)
  }

  /** `process` never prints cyan, so every colour it prints has an explanation. */
  lemma {:induction false} OutcomesExplained(bugs: seq<Bugs.Bug>, jobs: seq<MonitorParse.Job>, services: Services)
    ensures forall k :: 0 <= k < |Outcomes(bugs, jobs, services)| ==>
      && Outcomes(bugs, jobs, services)[k].fg.Some?
      && Outcomes(bugs, jobs, services)[k].fg.value != Console.Cyan
      && Outcomes(bugs, jobs, services)[k].fg.value in EXPLANATION
  {
    if jobs != [] {
      OutcomesExplained(bugs, jobs[..|jobs| - 1], services);
    }
  }

  /** Every colour counted over the processed jobs has an explanation, so the summary never fails. */
  lemma OutcomesTallyExplained(bugs: seq<Bugs.Bug>, jobs: seq<MonitorParse.Job>, services: Services)
    ensures forall c :: Console.Tally(Outcomes(bugs, jobs, services), c) > 0 ==> c in EXPLANATION
  {
    var processed := Outcomes(bugs, jobs, services);
    OutcomesExplained(bugs, jobs, services);
    forall c
      ensures Console.Tally(processed, c) > 0 ==> c in EXPLANATION
    {
      Console.TallyWithin(processed, EXPLANATION, c);
    }
  }

  /** All a run prints: the line of every job, an empty line and the summary. */
  function Transcript(bugs: seq<Bugs.Bug>, jobs: seq<MonitorParse.Job>, services: Services): seq<Console.Echo>
  {
    var processed := Outcomes(bugs, jobs, services);
    OutcomesTallyExplained(bugs, jobs, services);
    processed + [Console.Echo("", None)] + Console.Summary(processed, EXPLANATION)
  }

  /**
   * `main` after the page and the bugs have arrived: parse the page, then
   * process every job in order (the scripts run them concurrently), then
   * print the summary. A parse failure stops the script before any job runs.
   */
  method Run(term: Console.Terminal, rawBugs: seq<Bugs.Bug>, lines: seq<string>, services: Services)
    returns (r: Result<seq<MonitorParse.Job>, MonitorParse.ParseError>)
    requires term.Valid()
    requires term.printed == []
    modifies term
    ensures term.Valid()
    ensures r == MonitorParse.Triples(MonitorParse.Hits(MonitorParse.UntilTrailer(lines, PAGE.trailer), PAGE), s => s)
    ensures r.Failure? ==> term.printed == []
    ensures r.Success? ==> term.printed == Transcript(Bugs.SortByDescendingId(rawBugs), r.value, services)
  {
    var bugs := Bugs.SortByDescendingId(rawBugs);
    r := MonitorParse.ParseMonitor(lines, PAGE, [], s => s);
    MonitorParse.ParseFindsTriples(lines, PAGE, s => s);
    if r.Failure? {
      return;
    }
    var jobs := r.value;
    for i := 0 to |jobs|
      invariant term.Valid()
      invariant term.printed == Outcomes(bugs, jobs[..i], services)
    {
      OutcomesStep(bugs, jobs, i, services);
      Process(term, bugs, jobs[i], services);
    }
    assert jobs[..|jobs|] == jobs;
    OutcomesExplained(bugs, jobs, services);
    OutcomesTallyExplained(bugs, jobs, services);
    term.Summarize(EXPLANATION);
  }

  /** One more job adds its lines. */
  lemma OutcomesStep(bugs: seq<Bugs.Bug>, jobs: seq<MonitorParse.Job>, i: nat, services: Services)
    requires i < |jobs|
    ensures Outcomes(bugs, jobs[..i + 1], services) == Outcomes(bugs, jobs[..i], services) + Outcome(bugs, jobs[i], services)
  {
    assert jobs[..i + 1][..i] == jobs[..i];
  }

  /** Only failed builds print, and they print exactly one line. */
  lemma OneLinePerFailure(bugs: seq<Bugs.Bug>, job: MonitorParse.Job, services: Services)
    ensures job.status != "failed" <==> Outcome(bugs, job, services) == []
    ensures job.status == "failed" ==> |Outcome(bugs, job, services)| == 1
  {
  }

  /**
   * The colour of a failed build: green exactly when the package is retired;
   * otherwise yellow exactly when a bug that is not CLOSED tracks it, red when
   * none does and the build log is longer than `LIMIT`, blue when none does
   * and it is not.
   */
  lemma ColourRule(bugs: seq<Bugs.Bug>, job: MonitorParse.Job, services: Services)
    requires job.status == "failed"
    ensures var fg := Outcome(bugs, job, services)[0].fg.value;
      var retired := services.retired(job.package);
      var bz := Bugs.FirstBug(bugs, job.package);
      var long := services.contentLength(BuildlogLink(job.package, job.build)) > LIMIT;
      && (fg == Console.Green <==> retired)
      && (fg == Console.Yellow <==> !retired && !Bugs.NeedsReport(bz))
      && (fg == Console.Red <==> !retired && Bugs.NeedsReport(bz) && long)
      && (fg == Console.Blue <==> !retired && Bugs.NeedsReport(bz) && !long)
  {
  }
}
