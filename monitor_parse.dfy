/**
 * The line parser shared by monitor_check.py and monitor_check_rpm.py. It
 * reads the lines of a Copr monitor page. On each line it looks for a
 * package link, a build link and a build-state span, in that order. It
 * enforces the cycle status -> package -> build -> status (`lasthit`) and
 * records one job per build-state span. It stops after the first line that
 * holds the trailer text.
 */
module MonitorParse {
  import opened Wrappers
  import Strings
  import Numbers

  // ---------------------------------------------------------------------
  // The three regular expressions
  // ---------------------------------------------------------------------

  /**
   * The regular expression `prefix([^stop]+)suffix`. Every pattern the
   * scripts compile has a suffix that begins with `stop`.
   */
  datatype Pattern = Pattern(prefix: string, stop: char, suffix: string)

  predicate WellFormed(p: Pattern)
  {
    p.suffix != [] && p.suffix[0] == p.stop
  }

  /** `s` begins with a match of `p` whose group is `g`. */
  predicate MatchesWith(s: string, p: Pattern, g: string)
  {
    g != [] && p.stop !in g && Strings.StartsWith(s, p.prefix + g + p.suffix)
  }

  /** The group of the match of `p` at the very start of `s`, if there is one. */
  function MatchHere(s: string, p: Pattern): (r: Option<string>)
    ensures r.Some? ==> MatchesWith(s, p, r.value)
  {
    if !Strings.StartsWith(s, p.prefix) then None
    else
      var after := s[|p.prefix|..];
      var n := Strings.IndexOf(after, p.stop);
      if 0 < n && Strings.StartsWith(after[n..], p.suffix) then
        assert s == p.prefix + after[..n] + after[n..];
        assert (p.prefix + after[..n] + p.suffix) == s[..|p.prefix| + n + |p.suffix|];
        Some(after[..n])
      else None
  }

  /** A match at the start of `s` is the one `MatchHere` finds: the group cannot stop earlier or later. */
  lemma MatchHereExact(s: string, p: Pattern, g: string)
    requires WellFormed(p) && MatchesWith(s, p, g)
    ensures MatchHere(s, p) == Some(g)
  {
    var w := p.prefix + g + p.suffix;
    assert s[..|p.prefix|] == w[..|p.prefix|] == p.prefix;
    var after := s[|p.prefix|..];
    assert after[..|g|] == g;
    assert s[|p.prefix| + |g|] == w[|p.prefix| + |g|] == p.suffix[0];
    assert after[|g|] == p.stop;
    assert Strings.IndexOf(after, p.stop) == |g|;
    assert after[|g|..][..|p.suffix|] == p.suffix;
  }

  /** Some position `i` of `line` starts a match of `p` with group `g`. */
  predicate Occurs(line: string, p: Pattern, i: int, g: string)
  {
    0 <= i <= |line| && MatchesWith(line[i..], p, g)
  }

  function SearchFrom(line: string, p: Pattern, i: nat): Option<string>
    requires i <= |line|
    decreases |line| - i
  {
    var here := MatchHere(line[i..], p);
    if here.Some? then here
    else if i == |line| then None
    else SearchFrom(line, p, i + 1)
  }

  /** `p.search(line).group(1)`: the group of the leftmost match, or `None`. */
  function Search(line: string, p: Pattern): Option<string>
  {
    SearchFrom(line, p, 0)
  }

  lemma {:induction false} SearchFromIsLeftmost(line: string, p: Pattern, i: nat)
    requires WellFormed(p) && i <= |line|
    ensures SearchFrom(line, p, i).None? <==> forall k, g :: i <= k ==> !Occurs(line, p, k, g)
    ensures SearchFrom(line, p, i).Some? ==>
      exists k :: i <= k && Occurs(line, p, k, SearchFrom(line, p, i).value)
        && forall j, g :: i <= j < k ==> !Occurs(line, p, j, g)
    decreases |line| - i
  {
    var here := MatchHere(line[i..], p);
    if here.Some? {
      assert Occurs(line, p, i, here.value);
    } else {
      NoMatchHere(line, p, i);
      if i < |line| {
        SearchFromIsLeftmost(line, p, i + 1);
        var rest := SearchFrom(line, p, i + 1);
        assert SearchFrom(line, p, i) == rest;
        if rest.Some? {
          var k :| i + 1 <= k && Occurs(line, p, k, rest.value)
            && forall j, g :: i + 1 <= j < k ==> !Occurs(line, p, j, g);
          assert forall j, g :: i <= j < k ==> !Occurs(line, p, j, g);
        }
      }
    }
  }

  /** When `MatchHere` finds nothing at `i`, no match starts at `i`. */
  lemma NoMatchHere(line: string, p: Pattern, i: nat)
    requires WellFormed(p) && i <= |line| && MatchHere(line[i..], p).None?
    ensures forall g :: !Occurs(line, p, i, g)
  {
    forall g
      ensures !Occurs(line, p, i, g)
    {
      if Occurs(line, p, i, g) {
        MatchHereExact(line[i..], p, g);
      }
    }
  }

  /**
   * The regular-expression search: it finds nothing exactly when no
   * position of the line starts a match. Otherwise its group belongs to a
   * match at the leftmost position that starts any match.
   */
  lemma SearchIsLeftmost(line: string, p: Pattern)
    requires WellFormed(p)
    ensures Search(line, p).None? <==> forall k, g :: !Occurs(line, p, k, g)
    ensures Search(line, p).Some? ==>
      exists k :: Occurs(line, p, k, Search(line, p).value)
        && forall j, g :: 0 <= j < k ==> !Occurs(line, p, j, g)
  {
    SearchFromIsLeftmost(line, p, 0);
  }

  // ---------------------------------------------------------------------
  // Hits and the lasthit state machine
  // ---------------------------------------------------------------------

  /** The fixed texts a monitor page is read with. */
  datatype Page = Page(package: Pattern, build: Pattern, result: Pattern, trailer: string)

  predicate PageOk(page: Page)
  {
    WellFormed(page.package) && WellFormed(page.build) && WellFormed(page.result)
  }

  /** What one regular expression found on a line. */
  datatype Hit = PackageHit(name: string) | BuildHit(text: string) | StatusHit(status: string)

  /** The hits of one line, in the order the loop looks for them. */
  function LineHits(line: string, page: Page): seq<Hit>
  {
    (match Search(line, page.package) case Some(g) => [PackageHit(g)] case None => [])
    + (match Search(line, page.build) case Some(g) => [BuildHit(g)] case None => [])
    + (match Search(line, page.result) case Some(g) => [StatusHit(g)] case None => [])
  }

  /** `lasthit`: the kind of the last accepted hit. */
  datatype Last = AfterStatus | AfterPackage | AfterBuild

  /** One monitored build: `(package, build, status)`. */
  datatype Job = Job(package: string, build: int, status: string)

  /** An `assert lasthit == ...` that fails, or `int()` of a build id that fails. */
  datatype ParseError = OutOfOrder | BadBuildId(text: string)

  /** The loop's variables: `lasthit`, `package`, `build` and the jobs so far. */
  datatype Cursor = Cursor(last: Last, package: string, build: int, jobs: seq<Job>)

  /** The state before the first line: `lasthit = 'status'`, nothing seen. */
  function Start(): Cursor
  {
    Cursor(AfterStatus, "", 0, [])
  }

  /** Accept one hit, or fail when it comes out of order. */
  function Feed(c: Cursor, h: Hit, unquote: string -> string): Result<Cursor, ParseError>
  {
    match h
    case PackageHit(g) =>
      if c.last != AfterStatus then Failure(OutOfOrder)
      else Success(c.(last := AfterPackage, package := unquote(g)))
    case BuildHit(g) =>
      if c.last != AfterPackage then Failure(OutOfOrder)
      else
        (match Numbers.ParseInt(g)
         case None => Failure(BadBuildId(g))
         case Some(n) => Success(c.(last := AfterBuild, build := n)))
    case StatusHit(g) =>
      if c.last != AfterBuild then Failure(OutOfOrder)
      else Success(c.(last := AfterStatus, jobs := c.jobs + [Job(c.package, c.build, g)]))
  }

  /** Accept a sequence of hits in order. */
  function Advance(c: Cursor, hits: seq<Hit>, unquote: string -> string): Result<Cursor, ParseError>
    decreases |hits|
  {
    if hits == [] then Success(c)
    else
      match Feed(c, hits[0], unquote)
      case Failure(e) => Failure(e)
      case Success(c1) => Advance(c1, hits[1..], unquote)
  }

  /** `pkgs and package not in pkgs`: a package the command line did not ask for. */
  predicate Skipped(pkgs: seq<string>, package: string)
  {
    |pkgs| > 0 && package !in pkgs
  }

  /** The package and build hits of a line, in that order. */
  function Links(c: Cursor, line: string, page: Page, unquote: string -> string): Result<Cursor, ParseError>
  {
    var pkgHit := Search(line, page.package);
    var c1 :- (if pkgHit.Some? then Feed(c, PackageHit(pkgHit.value), unquote) else Success(c));
    var buildHit := Search(line, page.build);
    if buildHit.Some? then Feed(c1, BuildHit(buildHit.value), unquote) else Success(c1)
  }

  /**
   * The build-state hit of a line (if any), then the trailer test. A
   * build-state hit on a skipped package goes to the next line at once (the
   * `continue`), so the trailer test is not made for that line.
   */
  function Close(c: Cursor, resultHit: Option<string>, trailerFound: bool, pkgs: seq<string>, unquote: string -> string)
    : Result<(Cursor, bool), ParseError>
  {
    if resultHit.Some? && c.last == AfterBuild && Skipped(pkgs, c.package) then
      Success((c.(last := AfterStatus), false))
    else
      var c1 :- (if resultHit.Some? then Feed(c, StatusHit(resultHit.value), unquote) else Success(c));
      Success((c1, trailerFound))
  }

  function Finish(c: Cursor, line: string, page: Page, pkgs: seq<string>, unquote: string -> string)
    : Result<(Cursor, bool), ParseError>
  {
    Close(c, Search(line, page.result), Strings.Contains(line, page.trailer), pkgs, unquote)
  }

  /** One pass of the loop body over `line`: the new cursor and whether the loop breaks. */
  function Step(c: Cursor, line: string, page: Page, pkgs: seq<string>, unquote: string -> string)
    : Result<(Cursor, bool), ParseError>
  {
    var c1 :- Links(c, line, page, unquote);
    Finish(c1, line, page, pkgs, unquote)
  }

  /** The loop over the lines from cursor `c` on: the jobs it collects, or the first error. */
  function Scan(c: Cursor, lines: seq<string>, page: Page, pkgs: seq<string>, unquote: string -> string)
    : Result<seq<Job>, ParseError>
    decreases |lines|
  {
    if lines == [] then Success(c.jobs)
    else
      var next :- Step(c, lines[0], page, pkgs, unquote);
      if next.1 then Success(next.0.jobs) else Scan(next.0, lines[1..], page, pkgs, unquote)
  }

  /** The main loop, written as the scripts write it: it returns the jobs or the first failure. */
  method ParseMonitor(lines: seq<string>, page: Page, pkgs: seq<string>, unquote: string -> string)
    returns (r: Result<seq<Job>, ParseError>)
    ensures r == Scan(Start(), lines, page, pkgs, unquote)
  {
    var lasthit := AfterStatus;
    var package := "";
    var build := 0;
    var jobs: seq<Job> := [];
    var i := 0;
    while i < |lines|
      invariant 0 <= i <= |lines|
      invariant Scan(Start(), lines, page, pkgs, unquote)
        == Scan(Cursor(lasthit, package, build, jobs), lines[i..], page, pkgs, unquote)
    {
      var line := lines[i];
      ghost var before := Cursor(lasthit, package, build, jobs);
      assert lines[i..][0] == line && lines[i..][1..] == lines[i + 1..];
      var hit := Search(line, page.package);
      if hit.Some? {
        if lasthit != AfterStatus {
          return Failure(OutOfOrder);
        }
        lasthit := AfterPackage;
        package := unquote(hit.value);
      }
      hit := Search(line, page.build);
      if hit.Some? {
        if lasthit != AfterPackage {
          return Failure(OutOfOrder);
        }
        lasthit := AfterBuild;
        var n := Numbers.ParseInt(hit.value);
        if n.None? {
          return Failure(BadBuildId(hit.value));
        }
        build := n.value;
      }
      hit := Search(line, page.result);
      if hit.Some? {
        if lasthit != AfterBuild {
          return Failure(OutOfOrder);
        }
        lasthit := AfterStatus;
        if Skipped(pkgs, package) {
          i := i + 1;
          continue;
        }
        jobs := jobs + [Job(package, build, hit.value)];
      }
      if Strings.Contains(line, page.trailer) {
        return Success(jobs);
      }
      i := i + 1;
    }
    return Success(jobs);
  }

  // ---------------------------------------------------------------------
  // The reference reading: hits in groups of three
  // ---------------------------------------------------------------------

  /** The lines the loop reads: up to and including the first one that holds `trailer`. */
  function UntilTrailer(lines: seq<string>, trailer: string): (r: seq<string>)
    ensures |r| <= |lines| && r == lines[..|r|]
    ensures forall k :: 0 <= k < |r| - 1 ==> !Strings.Contains(r[k], trailer)
    ensures |r| < |lines| ==> r != [] && Strings.Contains(r[|r| - 1], trailer)
  {
    if lines == [] then []
    else if Strings.Contains(lines[0], trailer) then [lines[0]]
    else [lines[0]] + UntilTrailer(lines[1..], trailer)
  }

  /** All hits of the lines, line after line. */
  function Hits(lines: seq<string>, page: Page): seq<Hit>
  {
    if lines == [] then [] else LineHits(lines[0], page) + Hits(lines[1..], page)
  }

  /**
   * The monitor page read as the scripts expect it: the hits come in groups
   * of package, build, status. Each complete group is one job with the
   * unquoted package name and the build id as a number. An unfinished last
   * group adds nothing. A hit of the wrong kind is an error.
   */
  function Triples(hits: seq<Hit>, unquote: string -> string): Result<seq<Job>, ParseError>
    decreases |hits|
  {
    if hits == [] then Success([])
    else if !hits[0].PackageHit? then Failure(OutOfOrder)
    else if |hits| == 1 then Success([])
    else if !hits[1].BuildHit? then Failure(OutOfOrder)
    else
      match Numbers.ParseInt(hits[1].text)
      case None => Failure(BadBuildId(hits[1].text))
      case Some(n) =>
        if |hits| == 2 then Success([])
        else if !hits[2].StatusHit? then Failure(OutOfOrder)
        else
          var rest :- Triples(hits[3..], unquote);
          Success([Job(unquote(hits[0].name), n, hits[2].status)] + rest)
  }

  /** The jobs collected, put after `before`. */
  function JobsAfter(before: seq<Job>, r: Result<seq<Job>, ParseError>): Result<seq<Job>, ParseError>
  {
    match r
    case Success(js) => Success(before + js)
    case Failure(e) => Failure(e)
  }

  /** The jobs of the cursor a run of hits ends in. */
  function JobsOf(r: Result<Cursor, ParseError>): Result<seq<Job>, ParseError>
  {
    match r
    case Success(c) => Success(c.jobs)
    case Failure(e) => Failure(e)
  }

  /** Accepting `a + b` is accepting `a`, then `b`. */
  lemma {:induction false} AdvanceAppend(c: Cursor, a: seq<Hit>, b: seq<Hit>, unquote: string -> string)
    ensures Advance(c, a + b, unquote)
      == match Advance(c, a, unquote)
         case Failure(e) => Failure(e)
         case Success(c1) => Advance(c1, b, unquote)
    decreases |a|
  {
    if a == [] {
      assert a + b == b;
    } else {
      assert (a + b)[0] == a[0] && (a + b)[1..] == a[1..] + b;
      match Feed(c, a[0], unquote)
      case Failure(e) =>
      case Success(c1) => AdvanceAppend(c1, a[1..], b, unquote);
    }
  }

  /** Without a package filter, one loop pass accepts exactly the hits of its line. */
  lemma StepIsAdvance(c: Cursor, line: string, page: Page, unquote: string -> string)
    ensures Step(c, line, page, [], unquote)
      == match Advance(c, LineHits(line, page), unquote)
         case Failure(e) => Failure(e)
         case Success(c1) => Success((c1, Strings.Contains(line, page.trailer)))
  {
    var ph := match Search(line, page.package) case Some(g) => [PackageHit(g)] case None => [];
    var bh := match Search(line, page.build) case Some(g) => [BuildHit(g)] case None => [];
    var rh := match Search(line, page.result) case Some(g) => [StatusHit(g)] case None => [];
    assert LineHits(line, page) == (ph + bh) + rh;
    AdvanceAppend(c, ph + bh, rh, unquote);
    AdvanceAppend(c, ph, bh, unquote);
    assert Links(c, line, page, unquote) == Advance(c, ph + bh, unquote);
  }

  /** Without a package filter, the loop accepts exactly the hits of the lines up to the trailer. */
  lemma {:induction false} ScanIsAdvance(c: Cursor, lines: seq<string>, page: Page, unquote: string -> string)
    ensures Scan(c, lines, page, [], unquote)
      == JobsOf(Advance(c, Hits(UntilTrailer(lines, page.trailer), page), unquote))
    decreases |lines|
  {
    if lines != [] {
      var line := lines[0];
      var u := UntilTrailer(lines, page.trailer);
      StepIsAdvance(c, line, page, unquote);
      if Strings.Contains(line, page.trailer) {
        assert u == [line];
        assert Hits(u, page) == LineHits(line, page) + [];
        assert LineHits(line, page) + [] == LineHits(line, page);
      } else {
        var rest := UntilTrailer(lines[1..], page.trailer);
        assert u == [line] + rest && u[1..] == rest;
        assert Hits(u, page) == LineHits(line, page) + Hits(rest, page);
        AdvanceAppend(c, LineHits(line, page), Hits(rest, page), unquote);
        match Advance(c, LineHits(line, page), unquote)
        case Failure(e) =>
        case Success(c1) => ScanIsAdvance(c1, lines[1..], page, unquote);
      }
    }
  }

  /** The hits start with a complete group: a package, a build with a number and a status. */
  predicate FullGroup(hits: seq<Hit>)
  {
    && |hits| >= 3 && hits[0].PackageHit? && hits[1].BuildHit? && hits[2].StatusHit?
    && Numbers.ParseInt(hits[1].text).Some?
  }

  /** The job of a complete group. */
  function GroupJob(hits: seq<Hit>, unquote: string -> string): Job
    requires FullGroup(hits)
  {
    Job(unquote(hits[0].name), Numbers.ParseInt(hits[1].text).value, hits[2].status)
  }

  /** From a `status` state, a complete group is accepted as its job. */
  lemma GroupAdvance(c: Cursor, hits: seq<Hit>, unquote: string -> string)
    requires c.last == AfterStatus && FullGroup(hits)
    ensures var job := GroupJob(hits, unquote);
      Advance(c, hits, unquote)
        == Advance(Cursor(AfterStatus, job.package, job.build, c.jobs + [job]), hits[3..], unquote)
  {
    var job := GroupJob(hits, unquote);
    var c1 := c.(last := AfterPackage, package := job.package);
    var c2 := c1.(last := AfterBuild, build := job.build);
    assert Advance(c, hits, unquote) == Advance(c1, hits[1..], unquote);
    assert hits[1..][0] == hits[1] && hits[1..][1..] == hits[2..];
    assert Advance(c1, hits[1..], unquote) == Advance(c2, hits[2..], unquote);
    assert hits[2..][0] == hits[2] && hits[2..][1..] == hits[3..];
  }

  /** `Triples` on a complete group: its job, then the jobs of the rest. */
  lemma GroupTriples(hits: seq<Hit>, unquote: string -> string)
    requires FullGroup(hits)
    ensures Triples(hits, unquote) == JobsAfter([GroupJob(hits, unquote)], Triples(hits[3..], unquote))
  {
  }

  /** From a `status` state, hits that do not start with a complete group give what `Triples` gives. */
  lemma PartialGroup(c: Cursor, hits: seq<Hit>, unquote: string -> string)
    requires c.last == AfterStatus && !FullGroup(hits)
    ensures JobsOf(Advance(c, hits, unquote)) == JobsAfter(c.jobs, Triples(hits, unquote))
  {
    if hits == [] {
      assert c.jobs + [] == c.jobs;
    } else if hits[0].PackageHit? {
      var c1 := c.(last := AfterPackage, package := unquote(hits[0].name));
      assert Advance(c, hits, unquote) == Advance(c1, hits[1..], unquote);
      if |hits| == 1 {
        assert c.jobs + [] == c.jobs;
      } else if hits[1].BuildHit? && Numbers.ParseInt(hits[1].text).Some? {
        var c2 := c1.(last := AfterBuild, build := Numbers.ParseInt(hits[1].text).value);
        assert hits[1..][0] == hits[1] && hits[1..][1..] == hits[2..];
        assert Advance(c1, hits[1..], unquote) == Advance(c2, hits[2..], unquote);
        if |hits| == 2 {
          assert c.jobs + [] == c.jobs;
        }
      }
    }
  }

  /** From a `status` state, accepting hits collects the jobs of `Triples`, after the jobs already held. */
  lemma {:induction false} AdvanceIsTriples(c: Cursor, hits: seq<Hit>, unquote: string -> string)
    requires c.last == AfterStatus
    ensures JobsOf(Advance(c, hits, unquote)) == JobsAfter(c.jobs, Triples(hits, unquote))
    decreases |hits|
  {
    if !FullGroup(hits) {
      PartialGroup(c, hits, unquote);
    } else {
      var job := GroupJob(hits, unquote);
      var c3 := Cursor(AfterStatus, job.package, job.build, c.jobs + [job]);
      GroupAdvance(c, hits, unquote);
      GroupTriples(hits, unquote);
      AdvanceIsTriples(c3, hits[3..], unquote);
      JobsAfterAfter(c.jobs, [job], Triples(hits[3..], unquote));
    }
  }

  /** Putting jobs after `b`, then after `a`, is putting them after `a + b`. */
  lemma JobsAfterAfter(a: seq<Job>, b: seq<Job>, r: Result<seq<Job>, ParseError>)
    ensures JobsAfter(a, JobsAfter(b, r)) == JobsAfter(a + b, r)
  {
    if r.Success? {
      assert a + (b + r.value) == (a + b) + r.value;
    }
  }

  /**
   * Without a package filter, the loop yields exactly the jobs of the
   * page's hits read in groups of three, up to the trailer line, and fails
   * exactly where that reading fails.
   */
  lemma ParseFindsTriples(lines: seq<string>, page: Page, unquote: string -> string)
    ensures Scan(Start(), lines, page, [], unquote)
      == Triples(Hits(UntilTrailer(lines, page.trailer), page), unquote)
  {
    var hits := Hits(UntilTrailer(lines, page.trailer), page);
    ScanIsAdvance(Start(), lines, page, unquote);
    AdvanceIsTriples(Start(), hits, unquote);
    match Triples(hits, unquote)
    case Failure(e) =>
    case Success(js) => assert [] + js == js;
  }

  // ---------------------------------------------------------------------
  // The package filter of monitor_check_rpm.py
  // ---------------------------------------------------------------------

  /** The jobs whose packages the command line asked for, in order (all of them when it named none). */
  function Kept(jobs: seq<Job>, pkgs: seq<string>): (r: seq<Job>)
    ensures forall j :: j in r <==> j in jobs && !Skipped(pkgs, j.package)
  {
    if jobs == [] then []
    else
      var last := jobs[|jobs| - 1];
      assert jobs == jobs[..|jobs| - 1] + [last];
      Kept(jobs[..|jobs| - 1], pkgs) + (if Skipped(pkgs, last.package) then [] else [last])
  }

  lemma KeptAppend(jobs: seq<Job>, job: Job, pkgs: seq<string>)
    ensures Kept(jobs + [job], pkgs) == Kept(jobs, pkgs) + (if Skipped(pkgs, job.package) then [] else [job])
  {
    assert (jobs + [job])[..|jobs|] == jobs;
  }

  function KeptResult(r: Result<seq<Job>, ParseError>, pkgs: seq<string>): Result<seq<Job>, ParseError>
  {
    match r
    case Success(js) => Success(Kept(js, pkgs))
    case Failure(e) => Failure(e)
  }

  /** Package and build hits neither read nor change the jobs collected so far. */
  lemma LinksIgnoreJobs(d: Cursor, jobs: seq<Job>, line: string, page: Page, unquote: string -> string)
    ensures var plain := Links(d, line, page, unquote);
      && (plain.Success? ==> plain.value.jobs == d.jobs)
      && (plain.Failure? ==> Links(d.(jobs := jobs), line, page, unquote) == Failure(plain.error))
      && (plain.Success? ==> Links(d.(jobs := jobs), line, page, unquote) == Success(plain.value.(jobs := jobs)))
  {
  }

  /**
   * A build-state step with the filter is the one without it, with the
   * unwanted job dropped, unless a build-state hit and the trailer share the
   * line.
   */
  lemma CloseFiltered(c: Cursor, d: Cursor, resultHit: Option<string>, trailerFound: bool, pkgs: seq<string>, unquote: string -> string)
    requires c == d.(jobs := Kept(d.jobs, pkgs))
    requires trailerFound ==> resultHit.None?
    ensures var plain := Close(d, resultHit, trailerFound, [], unquote);
      && (plain.Failure? ==> Close(c, resultHit, trailerFound, pkgs, unquote) == Failure(plain.error))
      && (plain.Success? ==>
            Close(c, resultHit, trailerFound, pkgs, unquote)
              == Success((plain.value.0.(jobs := Kept(plain.value.0.jobs, pkgs)), plain.value.1)))
  {
    if resultHit.None? {
      assert Close(d, resultHit, trailerFound, [], unquote) == Success((d, trailerFound));
      assert Close(c, resultHit, trailerFound, pkgs, unquote) == Success((c, trailerFound));
    } else if d.last != AfterBuild {
      assert Close(d, resultHit, false, [], unquote) == Failure(OutOfOrder);
      assert Close(c, resultHit, false, pkgs, unquote) == Failure(OutOfOrder);
    } else {
      var job := Job(d.package, d.build, resultHit.value);
      KeptAppend(d.jobs, job, pkgs);
      var after := d.(last := AfterStatus, jobs := d.jobs + [job]);
      assert Close(d, resultHit, false, [], unquote) == Success((after, false));
      if Skipped(pkgs, d.package) {
        assert Kept(d.jobs, pkgs) + [] == Kept(d.jobs, pkgs);
        assert Close(c, resultHit, false, pkgs, unquote) == Success((c.(last := AfterStatus), false));
      } else {
        assert Close(c, resultHit, false, pkgs, unquote) == Success((c.(last := AfterStatus, jobs := c.jobs + [job]), false));
      }
    }
  }

  /** A trailer line holds no build-state hit: the case the scripts expect of the page. */
  predicate TrailerAlone(line: string, page: Page)
  {
    Strings.Contains(line, page.trailer) ==> Search(line, page.result).None?
  }

  /** A filtered pass is the unfiltered pass with the unwanted job dropped, and breaks alike. */
  lemma StepFiltered(c: Cursor, d: Cursor, line: string, page: Page, pkgs: seq<string>, unquote: string -> string)
    requires c == d.(jobs := Kept(d.jobs, pkgs))
    requires TrailerAlone(line, page)
    ensures var plain := Step(d, line, page, [], unquote);
      && (plain.Failure? ==> Step(c, line, page, pkgs, unquote) == Failure(plain.error))
      && (plain.Success? ==>
            Step(c, line, page, pkgs, unquote) == Success((plain.value.0.(jobs := Kept(plain.value.0.jobs, pkgs)), plain.value.1)))
  {
    LinksIgnoreJobs(d, c.jobs, line, page, unquote);
    var links := Links(d, line, page, unquote);
    if links.Success? {
      CloseFiltered(links.value.(jobs := c.jobs), links.value, Search(line, page.result),
        Strings.Contains(line, page.trailer), pkgs, unquote);
    }
  }

  /** The filtered loop collects the unfiltered loop's jobs minus the unwanted ones, and fails alike. */
  lemma {:induction false} ScanFiltered(c: Cursor, d: Cursor, lines: seq<string>, page: Page, pkgs: seq<string>, unquote: string -> string)
    requires c == d.(jobs := Kept(d.jobs, pkgs))
    requires forall k :: 0 <= k < |lines| ==> TrailerAlone(lines[k], page)
    ensures Scan(c, lines, page, pkgs, unquote) == KeptResult(Scan(d, lines, page, [], unquote), pkgs)
    decreases |lines|
  {
    if lines != [] {
      StepFiltered(c, d, lines[0], page, pkgs, unquote);
      match Step(d, lines[0], page, [], unquote)
      case Failure(e) =>
      case Success(next) =>
        if !next.1 {
          ScanFiltered(next.0.(jobs := Kept(next.0.jobs, pkgs)), next.0, lines[1..], page, pkgs, unquote);
        }
    }
  }

  /**
   * With a package filter, on a page whose trailer line holds no build
   * state, the loop yields the jobs of the hits up to the trailer line read
   * in groups of three, minus those of packages the command line did not
   * ask for, and fails exactly where that reading fails.
   */
  lemma ParseWithFilter(lines: seq<string>, page: Page, pkgs: seq<string>, unquote: string -> string)
    requires forall k :: 0 <= k < |lines| ==> TrailerAlone(lines[k], page)
    ensures Scan(Start(), lines, page, pkgs, unquote)
      == KeptResult(Triples(Hits(UntilTrailer(lines, page.trailer), page), unquote), pkgs)
  {
    ScanFiltered(Start(), Start(), lines, page, pkgs, unquote);
    ParseFindsTriples(lines, page, unquote);
  }

  /**
   * A build-state hit on a skipped package sends the loop to the next line
   * at once, so it goes on past the trailer line that holds that hit.
   */
  lemma SkippedStatusIgnoresTrailer(c: Cursor, line: string, rest: seq<string>, page: Page, pkgs: seq<string>, unquote: string -> string)
    requires Step(c, line, page, pkgs, unquote).Success?
    requires Search(line, page.result).Some?
    requires Skipped(pkgs, Step(c, line, page, pkgs, unquote).value.0.package)
    ensures Step(c, line, page, pkgs, unquote).value.0.jobs == c.jobs
    ensures Scan(c, [line] + rest, page, pkgs, unquote)
      == Scan(Step(c, line, page, pkgs, unquote).value.0, rest, page, pkgs, unquote)
  {
    assert ([line] + rest)[0] == line && ([line] + rest)[1..] == rest;
  }
}
