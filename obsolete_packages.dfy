/**
 * obsolete_packages.py: find the packages that required Python 3.7 in
 * Fedora 30 or 31 and are gone from rawhide, and print the `%obsolete`
 * line for each of them that nothing (or only `fedora-obsolete-packages`)
 * obsoletes yet, with its release bumped past the last one shipped.
 *
 * `repoquery` itself is an oracle from the command line to the lines it
 * prints; the newest version of a package (found with `rpmdev-vercmp`) is
 * an oracle too.
 */
module ObsoletePackages {
  import opened Wrappers
  import Strings
  import Numbers
  import Sorting

  // ----- The repoquery command line -----

  /** A keyword argument of `repoquery(...)`: `True` (a bare switch) or a string. */
  datatype Value = Flag | Text(text: string)

  /** The repositories: rawhide without a version, else the release and its updates. */
  function RepoFlags(version: Option<int>): seq<string>
  {
    match version
    case None => ["--repo=rawhide"]
    case Some(v) => ["--repo=fedora", "--repo=updates", "--repo=updates-testing", "--releasever=" + Numbers.IntToString(v)]
  }

  /** The words of one keyword argument: `--<key>`, then its value unless it is `True`. */
  function OptionWord(option: (string, Value)): seq<string>
  {
    match option.1
    case Flag => ["--" + option.0]
    case Text(t) => ["--" + option.0, t]
  }

  /** The words of the keyword arguments, in the order they were given. */
  function OptionWords(options: seq<(string, Value)>): seq<string>
  {
    if options == [] then [] else OptionWord(options[0]) + OptionWords(options[1..])
  }

  /** The command `repoquery(*args, version=..., **options)` runs. */
  function Command(args: seq<string>, version: Option<int>, options: seq<(string, Value)>): seq<string>
  {
    ["repoquery"] + RepoFlags(version) + args + OptionWords(options)
  }

  lemma {:induction false} OptionWordsAppend(options: seq<(string, Value)>, option: (string, Value))
    ensures OptionWords(options + [option]) == OptionWords(options) + OptionWord(option)
  {
    if options != [] {
      assert (options + [option])[1..] == options[1..] + [option];
      OptionWordsAppend(options[1..], option);
    } else {
      assert OptionWords([option]) == OptionWord(option) + OptionWords([]);
    }
  }

  /** The building of `cmd` in `repoquery`, one `append`/`extend` after another. */
  method RepoqueryCommand(args: seq<string>, version: Option<int>, options: seq<(string, Value)>)
    returns (cmd: seq<string>)
    ensures cmd == Command(args, version, options)
  {
    cmd := ["repoquery"];
    if version.None? {
      cmd := cmd + ["--repo=rawhide"];
    } else {
      cmd := cmd + ["--repo=fedora", "--repo=updates", "--repo=updates-testing",
                    "--releasever=" + Numbers.IntToString(version.value)];
    }
    if args != [] {
      cmd := cmd + args;
    } else {
      assert cmd + args == cmd;
    }
    assert cmd == ["repoquery"] + RepoFlags(version) + args;
    cmd := AppendOptions(cmd, options);
  }

  /** The loop of `repoquery(...)` over the keyword arguments: their words after `front`. */
  method AppendOptions(front: seq<string>, options: seq<(string, Value)>) returns (cmd: seq<string>)
    ensures cmd == front + OptionWords(options)
  {
    cmd := front;
    for i := 0 to |options|
      invariant cmd == front + OptionWords(options[..i])
    {
      var option := options[i];
      OptionWordsAppend(options[..i], option);
      assert options[..i + 1] == options[..i] + [option];
      cmd := cmd + ["--" + option.0];
      if option.1.Text? {
        cmd := cmd + [option.1.text];
      }
    }
    assert options[..|options|] == options;
  }

  /** Read keyword arguments back from their words: a `--` word is a key, and a following word that is not one is its value. */
  function ReadOptions(words: seq<string>): Option<seq<(string, Value)>>
    decreases |words|
  {
    if words == [] then Some([])
    else if !Strings.StartsWith(words[0], "--") then None
    else
      var key := words[0][2..];
      if |words| > 1 && !Strings.StartsWith(words[1], "--") then
        match ReadOptions(words[2..])
        case None => None
        case Some(rest) => Some([(key, Text(words[1]))] + rest)
      else
        match ReadOptions(words[1..])
        case None => None
        case Some(rest) => Some([(key, Flag)] + rest)
  }

  /** No string value looks like a switch. */
  predicate PlainValues(options: seq<(string, Value)>)
  {
    forall k :: 0 <= k < |options| && options[k].1.Text? ==> !Strings.StartsWith(options[k].1.text, "--")
  }

  /** The keyword arguments can be read back from the command line when no value looks like a switch. */
  lemma {:induction false} OptionWordsRoundTrip(options: seq<(string, Value)>)
    requires PlainValues(options)
    ensures ReadOptions(OptionWords(options)) == Some(options)
  {
    if options != [] {
      var option := options[0];
      OptionWordsRoundTrip(options[1..]);
      var words := OptionWords(options);
      assert words == OptionWord(option) + OptionWords(options[1..]);
      assert Strings.StartsWith(words[0], "--");
      assert words[0][2..] == option.0;
      if option.1.Text? {
        assert words[1] == option.1.text;
        assert words[2..] == OptionWords(options[1..]);
      } else {
        assert words[1..] == OptionWords(options[1..]);
        if |words| > 1 {
          assert OptionWords(options[1..]) != [];
          assert words[1] == OptionWord(options[1])[0];
        }
      }
      assert [options[0]] + options[1..] == options;
    }
  }

  /**
   * The command starts with `repoquery` and the repositories, then passes
   * the positional arguments unchanged, then the keyword arguments, which
   * can be read back from it when no value looks like a switch.
   */
  lemma CommandLayout(args: seq<string>, version: Option<int>, options: seq<(string, Value)>)
    requires PlainValues(options)
    ensures var cmd := Command(args, version, options);
      var n := if version.None? then 2 else 5;
      && cmd[0] == "repoquery"
      && (version.None? ==> cmd[1] == "--repo=rawhide")
      && |cmd| >= n + |args|
      && cmd[n..n + |args|] == args
      && ReadOptions(cmd[n + |args|..]) == Some(options)
  {
    var cmd := Command(args, version, options);
    var n := if version.None? then 2 else 5;
    assert cmd[n + |args|..] == OptionWords(options);
    OptionWordsRoundTrip(options);
  }

  // ----- Names -----

  /** `%{NAME}`: the query format that prints the package name. */
  const NAME := "%{NAME}"

  /** The releases whose packages are looked at. */
  const VERSIONS: seq<int> := [30, 31]

  /** What a package built for Python 3.7 requires. */
  const DEPENDENCIES: seq<string> := ["python(abi) = 3.7", "libpython3.7m.so.1.0()(64bit)"]

  /** `repoquery(version=version, whatrequires=dependency, qf='%{NAME}')`. */
  function RequiresQuery(version: int, dependency: string): seq<string>
  {
    Command([], Some(version), [("whatrequires", Text(dependency)), ("qf", Text(NAME))])
  }

  /** `repoquery(all=True, qf='%{NAME}')`: every package of rawhide. */
  function AllQuery(): seq<string>
  {
    Command([], None, [("all", Flag), ("qf", Text(NAME))])
  }

  /** `repoquery(whatobsoletes=f'{pkg} = {version}', qf='%{NAME}')`. */
  function ObsoletesQuery(pkg: string, version: string): seq<string>
  {
    Command([], None, [("whatobsoletes", Text(pkg + " = " + version)), ("qf", Text(NAME))])
  }

  /** `old_pkgs()`: every package that requires a Python 3.7 dependency in one of the releases. */
  method OldPkgs(repoquery: seq<string> -> seq<string>) returns (r: set<string>)
    ensures forall n :: n in r <==>
      exists i, j :: 0 <= i < |VERSIONS| && 0 <= j < |DEPENDENCIES| && n in repoquery(RequiresQuery(VERSIONS[i], DEPENDENCIES[j]))
  {
    r := {};
    for i := 0 to |VERSIONS|
      invariant forall n :: n in r <==>
        exists i', j :: 0 <= i' < i && 0 <= j < |DEPENDENCIES| && n in repoquery(RequiresQuery(VERSIONS[i'], DEPENDENCIES[j]))
    {
      ghost var before := r;
      for j := 0 to |DEPENDENCIES|
        invariant forall n :: n in r <==> (n in before ||
          exists j' :: 0 <= j' < j && n in repoquery(RequiresQuery(VERSIONS[i], DEPENDENCIES[j'])))
      {
        var names := repoquery(RequiresQuery(VERSIONS[i], DEPENDENCIES[j]));
        r := r + set n | n in names;
      }
    }
  }

  /** `removed_pkgs()`: the old packages that no longer exist. */
  function RemovedPkgs(before: set<string>, now: seq<string>): (r: set<string>)
    ensures forall p :: p in r <==> p in before && p !in now
  {
    before - set p | p in now
  }

  // ----- Version strings -----

  /** The release parts `drop_dist` keeps: those that do not start with `fc`, in their order. */
  function Undist(parts: seq<string>): (kept: seq<string>)
    ensures |kept| <= |parts|
    ensures forall p :: p in kept <==> p in parts && !Strings.StartsWith(p, "fc")
  {
    if parts == [] then []
    else (if Strings.StartsWith(parts[0], "fc") then [] else [parts[0]]) + Undist(parts[1..])
  }

  /** One part is kept exactly when it does not start with `fc`. */
  lemma UndistOne(p: string)
    ensures Undist([p]) == if Strings.StartsWith(p, "fc") then [] else [p]
  {
    assert [p][1..] == [];
  }

  /**
   * The parts of `a + b` that are kept are those of `a`, then those of `b`:
   * with `UndistOne`, the kept parts stay in their original order.
   */
  lemma {:induction false} UndistAppend(a: seq<string>, b: seq<string>)
    ensures Undist(a + b) == Undist(a) + Undist(b)
  {
    if a == [] {
      assert a + b == b;
    } else {
      assert (a + b)[0] == a[0];
      assert (a + b)[1..] == a[1..] + b;
      UndistAppend(a[1..], b);
    }
  }

  /** Dropping the dist parts twice drops nothing more. */
  lemma {:induction false} UndistIdempotent(parts: seq<string>)
    ensures Undist(Undist(parts)) == Undist(parts)
  {
    if parts != [] {
      UndistIdempotent(parts[1..]);
      if !Strings.StartsWith(parts[0], "fc") {
        var kept := [parts[0]] + Undist(parts[1..]);
        assert Undist(parts) == kept;
        assert kept[0] == parts[0] && kept[1..] == Undist(parts[1..]);
      } else {
        assert Undist(parts) == Undist(parts[1..]);
      }
    }
  }

  /** `drop_dist(evr)`: remove every `fc...` part from the release after the last `-`. */
  function DropDist(evr: string): string
  {
    var cut := Strings.RPartition(evr, '-');
    cut.head + "-" + Strings.Join(Undist(Strings.Split(cut.tail, '.')), '.')
  }

  /** The released parts have no `-`, since the release comes after the last one. */
  lemma ReleasePartsHaveNoDash(release: string, parts: seq<string>)
    requires '-' !in release
    requires Strings.Join(parts, '.') == release
    ensures forall k :: 0 <= k < |parts| ==> '-' !in parts[k]
  {
    forall k | 0 <= k < |parts|
      ensures '-' !in parts[k]
    {
      if '-' in parts[k] {
        Strings.InJoin(parts, '.', k, '-');
      }
    }
  }

  /** Joining parts that have no `-` gives a text without `-`. */
  lemma {:induction false} JoinNoDash(parts: seq<string>)
    requires forall k :: 0 <= k < |parts| ==> '-' !in parts[k]
    ensures '-' !in Strings.Join(parts, '.')
  {
    if |parts| > 1 {
      JoinNoDash(parts[1..]);
    }
  }

  /**
   * `drop_dist` leaves the text before the last `-` alone, and the release
   * after it consists of exactly the parts that do not start with `fc`, in
   * their order. Doing it twice is doing it once.
   */
  lemma DropDistRule(evr: string)
    ensures var cut := Strings.RPartition(evr, '-');
      var kept := Undist(Strings.Split(cut.tail, '.'));
      var r := DropDist(evr);
      && Strings.RPartition(r, '-') == Strings.Cut(cut.head, true, r[|cut.head| + 1..])
      && (kept != [] ==> Strings.Split(r[|cut.head| + 1..], '.') == kept)
      && (kept == [] ==> r == cut.head + "-")
    ensures DropDist(DropDist(evr)) == DropDist(evr)
  {
    var cut := Strings.RPartition(evr, '-');
    var parts := Strings.Split(cut.tail, '.');
    var kept := Undist(parts);
    var release := Strings.Join(kept, '.');
    var r := DropDist(evr);
    ReleasePartsHaveNoDash(cut.tail, parts);
    UndistClean(parts, '-');
    UndistClean(parts, '.');
    JoinNoDash(kept);
    assert r == cut.head + ['-'] + release;
    Strings.RPartitionUnique(r, '-', cut.head, release);
    assert r[|cut.head| + 1..] == release;
    if kept != [] {
      Strings.SplitJoin(kept, '.');
      UndistIdempotent(parts);
      assert DropDist(r) == cut.head + "-" + Strings.Join(Undist(kept), '.');
    } else {
      assert Strings.Split("", '.') == [""];
      assert Undist([""]) == [""];
      assert DropDist(r) == cut.head + "-" + Strings.Join([""], '.');
    }
  }

  /** The parts `drop_dist` keeps are parts of the release, so they lack what every release part lacks. */
  lemma UndistClean(parts: seq<string>, c: char)
    requires forall k :: 0 <= k < |parts| ==> c !in parts[k]
    ensures forall k :: 0 <= k < |Undist(parts)| ==> c !in Undist(parts)[k]
  {
    var kept := Undist(parts);
    forall k | 0 <= k < |kept|
      ensures c !in kept[k]
    {
      assert kept[k] in kept;
      var m :| 0 <= m < |parts| && parts[m] == kept[k];
    }
  }

  /** `drop_0epoch(evr)`: drop an epoch of `0`. */
  function DropZeroEpoch(evr: string): (r: string)
    ensures Strings.StartsWith(evr, "0:") ==> r == evr[2..]
    ensures evr == "0" ==> r == ""
    ensures !Strings.StartsWith(evr, "0:") && evr != "0" ==> r == evr
  {
    var cut := Strings.Partition(evr, ':');
    ZeroEpochCut(evr);
    if cut.head == "0" then cut.tail else evr
  }

  /** The epoch before the first `:` is `0` exactly when the text starts with `0:` or is `0`. */
  lemma ZeroEpochCut(evr: string)
    ensures var cut := Strings.Partition(evr, ':');
      && (cut.head == "0" <==> Strings.StartsWith(evr, "0:") || evr == "0")
      && (Strings.StartsWith(evr, "0:") ==> cut.tail == evr[2..])
      && (evr == "0" ==> cut.tail == "")
  {
    var cut := Strings.Partition(evr, ':');
    if Strings.StartsWith(evr, "0:") {
      assert evr == "0" + [':'] + evr[2..];
      Strings.PartitionUnique(evr, ':', "0", evr[2..]);
    }
  }

  /** Why `bump_release` gives up: every part is `0` (`RuntimeError`), or a part is not an integer (`ValueError`). */
  datatype BumpError = CannotBump(evr: string) | NotAnInteger(part: string)

  /** How many release parts are `0` before the first that is not. */
  function LeadingZeros(parts: seq<string>): (z: nat)
    ensures z <= |parts|
    ensures forall k :: 0 <= k < z ==> parts[k] == "0"
    ensures z < |parts| ==> parts[z] != "0"
  {
    if parts == [] || parts[0] != "0" then 0 else 1 + LeadingZeros(parts[1..])
  }

  /** The release parts after bumping: all `0` (nothing to bump), a part that is no integer, or the new parts. */
  datatype Bumped = AllZero | Bad(part: string) | Bumped(parts: seq<string>)

  /** Keep the leading `0` parts, add one to the next and drop the rest. */
  function BumpParts(parts: seq<string>): Bumped
  {
    var z := LeadingZeros(parts);
    if z == |parts| then AllZero
    else
      match Numbers.ParseInt(parts[z])
      case None => Bad(parts[z])
      case Some(n) => Bumped(parts[..z] + [Numbers.IntToString(n + 1)])
  }

  /** `bump_release(evr)` as a value: the text before the last `-`, then the bumped release. */
  function Bump(evr: string): Result<string, BumpError>
  {
    var cut := Strings.RPartition(evr, '-');
    match BumpParts(Strings.Split(cut.tail, '.'))
    case AllZero => Failure(CannotBump(evr))
    case Bad(part) => Failure(NotAnInteger(part))
    case Bumped(out) => Success(cut.head + "-" + Strings.Join(out, '.'))
  }

  /** `bump_release(evr)`: split off the release, bump its parts, put it back. */
  method BumpRelease(evr: string) returns (r: Result<string, BumpError>)
    ensures r == Bump(evr)
  {
    var cut := Strings.RPartition(evr, '-');
    var parts := Strings.Split(cut.tail, '.');
    var bumped := BumpLoop(parts);
    BumpCases(evr);
    match bumped
    case AllZero => r := Failure(CannotBump(evr));
    case Bad(part) => r := Failure(NotAnInteger(part));
    case Bumped(out) => r := Success(cut.head + "-" + Strings.Join(out, '.'));
  }

  /** The loop of `bump_release` over the release parts, with its early returns. */
  method BumpLoop(parts: seq<string>) returns (b: Bumped)
    ensures b == BumpParts(parts)
  {
    var release: seq<string> := [];
    for i := 0 to |parts|
      invariant release == parts[..i]
      invariant i <= LeadingZeros(parts)
    {
      if parts[i] == "0" {
        release := release + [parts[i]];
        assert parts[..i + 1] == parts[..i] + [parts[i]];
      } else {
        assert LeadingZeros(parts) == i;
        var n := Numbers.ParseInt(parts[i]);
        if n.None? {
          return Bad(parts[i]);
        }
        release := release + [Numbers.IntToString(n.value + 1)];
        return Bumped(release);
      }
    }
    assert LeadingZeros(parts) == |parts|;
    return AllZero;
  }

  /** What `Bump` gives for each outcome of `BumpParts`. */
  lemma BumpCases(evr: string)
    ensures var cut := Strings.RPartition(evr, '-');
      var bumped := BumpParts(Strings.Split(cut.tail, '.'));
      && (bumped.AllZero? ==> Bump(evr) == Failure(CannotBump(evr)))
      && (bumped.Bad? ==> Bump(evr) == Failure(NotAnInteger(bumped.part)))
      && (bumped.Bumped? ==> Bump(evr) == Success(cut.head + "-" + Strings.Join(bumped.parts, '.')))
  {
  }

  /** `str(n)` has neither `.` nor, for `n >= 0`, `-`. */
  lemma IntToStringChars(n: int)
    ensures '.' !in Numbers.IntToString(n)
    ensures n >= 0 ==> '-' !in Numbers.IntToString(n)
  {
    var digits := Numbers.NatToString(if n < 0 then -n else n);
    assert Numbers.AllDigits(digits);
    assert '.' !in digits && '-' !in digits;
    if n < 0 {
      assert Numbers.IntToString(n) == "-" + digits;
    }
  }

  /**
   * Nothing can be bumped exactly when every part is `0`; a bad part is the
   * first that is not `0`; otherwise the new parts are the leading `0`
   * parts, then the first other part plus one, and nothing after it.
   */
  lemma BumpPartsRule(parts: seq<string>)
    ensures BumpParts(parts).AllZero? <==> forall k :: 0 <= k < |parts| ==> parts[k] == "0"
    ensures BumpParts(parts).Bad? ==>
      exists z :: 0 <= z < |parts| && (forall k :: 0 <= k < z ==> parts[k] == "0")
        && parts[z] != "0" && parts[z] == BumpParts(parts).part && Numbers.ParseInt(parts[z]).None?
    ensures BumpParts(parts).Bumped? ==>
      var out := BumpParts(parts).parts;
      var z := |out| - 1;
      && 0 <= z < |parts|
      && out[..z] == parts[..z]
      && (forall k :: 0 <= k < z ==> out[k] == "0")
      && parts[z] != "0"
      && Numbers.ParseInt(parts[z]).Some?
      && Numbers.ParseInt(out[z]) == Some(Numbers.ParseInt(parts[z]).value + 1)
  {
    var z := LeadingZeros(parts);
    if z < |parts| {
      assert parts[z] != "0";
      match Numbers.ParseInt(parts[z])
      case None =>
      case Some(n) =>
        var out := parts[..z] + [Numbers.IntToString(n + 1)];
        assert out[..z] == parts[..z];
        Numbers.ParseIntOfIntToString(n + 1);
    }
  }

  /** Bumping parts that have neither `.` nor `-` gives parts that have neither. */
  lemma BumpedPartsClean(parts: seq<string>)
    requires forall k :: 0 <= k < |parts| ==> '.' !in parts[k] && '-' !in parts[k]
    requires BumpParts(parts).Bumped?
    ensures var out := BumpParts(parts).parts;
      out != [] && forall k :: 0 <= k < |out| ==> '.' !in out[k] && '-' !in out[k]
  {
    var z := LeadingZeros(parts);
    var n := Numbers.ParseInt(parts[z]).value;
    assert '-' !in parts[z];
    IntToStringChars(n + 1);
    var out := parts[..z] + [Numbers.IntToString(n + 1)];
    assert BumpParts(parts).parts == out;
    forall k | 0 <= k < |out|
      ensures '.' !in out[k] && '-' !in out[k]
    {
      if k < z {
        assert out[k] == parts[k];
      }
    }
  }

  /** `ev-release` for a release joined from parts without `.` or `-` gives back `ev` and the parts. */
  lemma JoinedShape(head: string, out: seq<string>)
    requires out != []
    requires forall k :: 0 <= k < |out| ==> '.' !in out[k] && '-' !in out[k]
    ensures var r := head + "-" + Strings.Join(out, '.');
      && Strings.RPartition(r, '-') == Strings.Cut(head, true, r[|head| + 1..])
      && Strings.Split(r[|head| + 1..], '.') == out
  {
    JoinNoDash(out);
    Strings.SplitJoin(out, '.');
    var release := Strings.Join(out, '.');
    var r := head + "-" + release;
    assert r == head + ['-'] + release;
    Strings.RPartitionUnique(r, '-', head, release);
    assert r[|head| + 1..] == release;
  }

  /**
   * `bump_release` fails with `RuntimeError` exactly when every release
   * part is `0`, and with `ValueError` on a first non-`0` part that is not
   * an integer. Otherwise it keeps the text before the last `-`, and the new
   * release is the leading `0` parts followed by the first other part plus
   * one; later parts are dropped.
   */
  lemma BumpRule(evr: string)
    ensures var cut := Strings.RPartition(evr, '-');
      var parts := Strings.Split(cut.tail, '.');
      && (Bump(evr) == Failure(CannotBump(evr)) <==> forall k :: 0 <= k < |parts| ==> parts[k] == "0")
      && (Bump(evr).Failure? && Bump(evr).error.NotAnInteger? ==> BumpParts(parts) == Bad(Bump(evr).error.part))
      && (Bump(evr).Success? ==>
            && Strings.RPartition(Bump(evr).value, '-') == Strings.Cut(cut.head, true, Bump(evr).value[|cut.head| + 1..])
            && Strings.Split(Bump(evr).value[|cut.head| + 1..], '.') == BumpParts(parts).parts)
  {
    var cut := Strings.RPartition(evr, '-');
    var parts := Strings.Split(cut.tail, '.');
    BumpCases(evr);
    BumpPartsRule(parts);
    if BumpParts(parts).Bumped? {
      ReleasePartsHaveNoDash(cut.tail, parts);
      BumpedPartsClean(parts);
      JoinedShape(cut.head, BumpParts(parts).parts);
    }
  }

  /** `format_obsolete(pkg, evr)`: the `%obsolete` line, with the release bumped. */
  function FormatObsolete(pkg: string, evr: string): (r: Result<string, BumpError>)
    ensures r.Success? <==> Bump(evr).Success?
    ensures r.Success? ==> r.value == "%obsolete " + pkg + " " + Bump(evr).value
    ensures r.Failure? ==> r.error == Bump(evr).error
  {
    var bumped :- Bump(evr);
    Success("%obsolete " + pkg + " " + bumped)
  }

  // ----- The script -----

  /** A printed line: the `%obsolete` lines go to standard output, the notes to standard error. */
  datatype Line = Stdout(text: string) | Stderr(text: string)

  /** A package gets a `%obsolete` line when nothing, or only `fedora-obsolete-packages`, obsoletes it. */
  predicate Unobsoleted(obsoleters: seq<string>)
  {
    obsoleters == [] || obsoleters == ["fedora-obsolete-packages"]
  }

  /** The version a package is obsoleted at: its newest version without dist tag and without a `0` epoch. */
  function VersionOf(pkg: string, newest: string -> string): string
  {
    DropZeroEpoch(DropDist(newest(pkg)))
  }

  /** What the loop body prints for one package, or why it stops the script. */
  function ReportOf(pkg: string, repoquery: seq<string> -> seq<string>, newest: string -> string): Result<Line, BumpError>
  {
    var version := VersionOf(pkg, newest);
    var obsoleters := repoquery(ObsoletesQuery(pkg, version));
    if Unobsoleted(obsoleters) then
      var formatted := FormatObsolete(pkg, version);
      if formatted.Failure? then Failure(formatted.error) else Success(Stdout(formatted.value))
    else Success(Stderr("# " + pkg + " " + version + " obsoleted by " + Strings.JoinWith(obsoleters, ", ")))
  }

  /** `ReportOf` for the script's oracles, as the function the loop applies to each package. */
  function Report(repoquery: seq<string> -> seq<string>, newest: string -> string): string -> Result<Line, BumpError>
  {
    pkg => ReportOf(pkg, repoquery, newest)
  }

  /** The lines printed for `pkgs` in order, and the error that stops the loop, if any. */
  function Reports(pkgs: seq<string>, report: string -> Result<Line, BumpError>): (seq<Line>, Option<BumpError>)
  {
    if pkgs == [] then ([], None)
    else
      var first := report(pkgs[0]);
      if first.Failure? then ([], Some(first.error))
      else
        var rest := Reports(pkgs[1..], report);
        ([first.value] + rest.0, rest.1)
  }

  /** The body of the top-level loop for one package. */
  method ReportOne(pkg: string, repoquery: seq<string> -> seq<string>, newest: string -> string)
    returns (r: Result<Line, BumpError>)
    ensures r == ReportOf(pkg, repoquery, newest)
  {
    var version := DropZeroEpoch(DropDist(newest(pkg)));
    var obsoleters := repoquery(ObsoletesQuery(pkg, version));
    if obsoleters == [] || obsoleters == ["fedora-obsolete-packages"] {
      var formatted := FormatObsolete(pkg, version);
      if formatted.Failure? {
        return Failure(formatted.error);
      }
      return Success(Stdout(formatted.value));
    }
    return Success(Stderr("# " + pkg + " " + version + " obsoleted by " + Strings.JoinWith(obsoleters, ", ")));
  }

  /** The top-level loop over the removed packages in sorted order; a failed bump ends it. */
  method ReportAll(pkgs: seq<string>, repoquery: seq<string> -> seq<string>, newest: string -> string)
    returns (lines: seq<Line>, error: Option<BumpError>)
    ensures (lines, error) == Reports(pkgs, Report(repoquery, newest))
  {
    ghost var report := Report(repoquery, newest);
    lines := [];
    assert pkgs[0..] == pkgs;
    AfterNothing(Reports(pkgs, report));
    for i := 0 to |pkgs|
      invariant Reports(pkgs, report) == After(lines, Reports(pkgs[i..], report))
    {
      var line := ReportOne(pkgs[i], repoquery, newest);
      assert line == report(pkgs[i]);
      ReportsStep(pkgs, i, lines, report);
      if line.Failure? {
        return lines, Some(line.error);
      }
      lines := lines + [line.value];
    }
    assert pkgs[|pkgs|..] == [];
    assert lines + [] == lines;
    return lines, None;
  }

  lemma AfterNothing(r: (seq<Line>, Option<BumpError>))
    ensures After([], r) == r
  {
    assert [] + r.0 == r.0;
  }

  /** The lines `printed` come before what the rest of the loop prints. */
  function After(printed: seq<Line>, rest: (seq<Line>, Option<BumpError>)): (seq<Line>, Option<BumpError>)
  {
    (printed + rest.0, rest.1)
  }

  /** One more turn of the loop after `printed`. */
  lemma ReportsStep(pkgs: seq<string>, i: nat, printed: seq<Line>, report: string -> Result<Line, BumpError>)
    requires i < |pkgs|
    ensures var first := report(pkgs[i]);
      After(printed, Reports(pkgs[i..], report)) ==
        if first.Failure? then (printed, Some(first.error))
        else After(printed + [first.value], Reports(pkgs[i + 1..], report))
  {
    assert pkgs[i..][1..] == pkgs[i + 1..];
    var first := report(pkgs[i]);
    if first.Failure? {
      assert printed + [] == printed;
    } else {
      var rest := Reports(pkgs[i + 1..], report);
      assert printed + ([first.value] + rest.0) == printed + [first.value] + rest.0;
    }
  }

  /**
   * The loop applies `report` to the packages in order: one line per
   * package until the first failure, whose error it returns.
   */
  lemma {:induction false} ReportsShape(pkgs: seq<string>, report: string -> Result<Line, BumpError>)
    ensures var (lines, error) := Reports(pkgs, report);
      && |lines| <= |pkgs|
      && (error.None? ==> |lines| == |pkgs|)
      && (forall k :: 0 <= k < |lines| ==> report(pkgs[k]) == Success(lines[k]))
      && (error.Some? ==> |lines| < |pkgs| && report(pkgs[|lines|]) == Failure(error.value))
  {
    if pkgs != [] {
      ReportsShape(pkgs[1..], report);
      var first := report(pkgs[0]);
      if first.Success? {
        var (lines, error) := Reports(pkgs, report);
        var rest := Reports(pkgs[1..], report);
        assert lines == [first.value] + rest.0;
        forall k | 0 <= k < |lines|
          ensures report(pkgs[k]) == Success(lines[k])
        {
          if k > 0 {
            assert lines[k] == rest.0[k - 1] && pkgs[k] == pkgs[1..][k - 1];
          }
        }
        if error.Some? {
          assert pkgs[|lines|] == pkgs[1..][|rest.0|];
        }
      }
    }
  }

  /** The whole script: the removed packages, then one line for each of them in name order. */
  method Run(repoquery: seq<string> -> seq<string>, newest: string -> string)
    returns (removed: set<string>, lines: seq<Line>, error: Option<BumpError>)
    ensures forall p :: p in removed <==>
      (exists i, j :: 0 <= i < |VERSIONS| && 0 <= j < |DEPENDENCIES| && p in repoquery(RequiresQuery(VERSIONS[i], DEPENDENCIES[j])))
      && p !in repoquery(AllQuery())
    ensures (lines, error) == Reports(Sorting.SortedStrings(removed), Report(repoquery, newest))
  {
    var before := OldPkgs(repoquery);
    removed := RemovedPkgs(before, repoquery(AllQuery()));
    lines, error := ReportAll(Sorting.SortedStrings(removed), repoquery, newest);
  }

  /** `line` is what the loop prints for `pkg`: the `%obsolete` line exactly when nothing else obsoletes it. */
  predicate Fits(pkg: string, line: Line, repoquery: seq<string> -> seq<string>, newest: string -> string)
  {
    var version := VersionOf(pkg, newest);
    && (line.Stdout? <==> Unobsoleted(repoquery(ObsoletesQuery(pkg, version))))
    && (line.Stdout? ==> FormatObsolete(pkg, version) == Success(line.text))
  }

  /** `error` stops the loop at `pkg`: its `%obsolete` line is due and its bump fails. */
  predicate Stops(pkg: string, error: BumpError, repoquery: seq<string> -> seq<string>, newest: string -> string)
  {
    var version := VersionOf(pkg, newest);
    Unobsoleted(repoquery(ObsoletesQuery(pkg, version))) && FormatObsolete(pkg, version) == Failure(error)
  }

  /** What the loop body does for one package. */
  lemma ReportOfRule(pkg: string, repoquery: seq<string> -> seq<string>, newest: string -> string)
    ensures ReportOf(pkg, repoquery, newest).Success? ==> Fits(pkg, ReportOf(pkg, repoquery, newest).value, repoquery, newest)
    ensures ReportOf(pkg, repoquery, newest).Failure? ==> Stops(pkg, ReportOf(pkg, repoquery, newest).error, repoquery, newest)
  {
    var version := VersionOf(pkg, newest);
    var r := ReportOf(pkg, repoquery, newest);
    if Unobsoleted(repoquery(ObsoletesQuery(pkg, version))) {
      var formatted := FormatObsolete(pkg, version);
      assert r == if formatted.Failure? then Failure(formatted.error) else Success(Stdout(formatted.value));
    } else {
      assert r.Success? && r.value.Stderr?;
    }
  }

  /**
   * Without an error there is one line per package, in order; it is the
   * `%obsolete` line exactly when the package is not obsoleted yet. An error
   * comes from the bump of such a package, after the lines of the ones
   * before it.
   */
  lemma ReportsRule(pkgs: seq<string>, repoquery: seq<string> -> seq<string>, newest: string -> string)
    ensures var (lines, error) := Reports(pkgs, Report(repoquery, newest));
      && |lines| <= |pkgs|
      && (error.None? ==> |lines| == |pkgs|)
      && (forall k :: 0 <= k < |lines| ==> Fits(pkgs[k], lines[k], repoquery, newest))
      && (error.Some? ==> |lines| < |pkgs| && Stops(pkgs[|lines|], error.value, repoquery, newest))
  {
    var report := Report(repoquery, newest);
    var (lines, error) := Reports(pkgs, report);
    ReportsShape(pkgs, report);
    forall k | 0 <= k < |lines|
      ensures Fits(pkgs[k], lines[k], repoquery, newest)
    {
      ReportOfRule(pkgs[k], repoquery, newest);
    }
    if error.Some? {
      ReportOfRule(pkgs[|lines|], repoquery, newest);
    }
  }
}
