/**
 * repo_findold.py: the Python 3.8 packages whose build in the Koji
 * repository is older than the one in the Python 3.9 repository. Both
 * repositories are read into name -> version-release dictionaries, each
 * package with an entry for Python 3.9 is compared with `rpmdev-vercmp`,
 * and the names for which it exits with 11 are printed, sorted.
 */
module RepoFindold {
  import opened Wrappers
  import Strings
  import Sorting

  /** What one run of `rpmdev-vercmp` gives: its exit code and its standard output. */
  datatype VercmpRun = VercmpRun(code: int, stdout: string)

  /** `rpmdev-vercmp <a> <b>`: exit code 11 when `a` is newer, 12 when `b` is, 0 when both are equal. */
  type Vercmp = (string, string) -> VercmpRun

  /** The exit code for which a package is kept: the first version is the newer one. */
  const OLDER := 11

  /** Why the script stops with an exception. */
  datatype Error =
    | Unsplittable(entry: string)  // `"{0}-{1}".format(...)` with fewer than two parts: IndexError
    | NoKojiBuild(pkg: string)     // `kojidict[pkg]`: KeyError

  // ----- name -> version-release -----

  /** `pkg.rsplit('-', 2)`: the name and `version-release`; `None` with fewer than two `-`. */
  function NameVersion(entry: string): (r: Option<(string, string)>)
    ensures r.Some? ==> r.value.0 + "-" + r.value.1 == entry
  {
    var parts := Strings.RSplitTwo(entry, '-');
    if parts.None? then None
    else
      var (name, version, release) := parts.value;
      Some((name, version + "-" + release))
  }

  /**
   * The split is at the last two `-` of the entry: an entry
   * `<name>-<version>-<release>` with a version and release free of `-`
   * gives `<name>` and `<version>-<release>`.
   */
  lemma NameVersionRule(name: string, version: string, release: string)
    requires '-' !in version && '-' !in release
    ensures NameVersion(name + "-" + version + "-" + release) == Some((name, version + "-" + release))
  {
    var entry := name + "-" + version + "-" + release;
    assert entry == name + ['-'] + version + ['-'] + release;
    Strings.RSplitTwoOf(name, version, release, '-');
  }

  /**
   * The split rejects exactly the entries without two `-`. The value of
   * an entry it accepts is two `-`-free parts joined by one `-`.
   */
  lemma NameVersionFails(entry: string)
    ensures NameVersion(entry).None? <==> '-' !in entry || '-' !in Strings.RPartition(entry, '-').head
    ensures NameVersion(entry).Some? ==>
      exists version, release :: '-' !in version && '-' !in release
        && NameVersion(entry).value.1 == version + "-" + release
  {
    var parts := Strings.RSplitTwo(entry, '-');
    if parts.Some? {
      var (name, version, release) := parts.value;
      assert NameVersion(entry).value.1 == version + "-" + release;
    }
  }

  /** How an entry is split into a key and a value. */
  type Split = string -> Option<(string, string)>

  /**
   * `{pkg.rsplit('-', 2)[0]: ... for pkg in repo}`, the entries in the
   * order the set yields them: a later entry with the same name replaces an
   * earlier one, and the first entry that does not split stops the script.
   */
  function Dict(entries: seq<string>, split: Split): Result<map<string, string>, Error>
    decreases |entries|
  {
    if entries == [] then Success(map[])
    else
      var prev := Dict(entries[..|entries| - 1], split);
      var last := entries[|entries| - 1];
      var nv := split(last);
      if prev.Failure? then prev
      else if nv.None? then Failure(Unsplittable(last))
      else Success(prev.value[nv.value.0 := nv.value.1])
  }

  /** The dictionary fails exactly when some entry does not split, and then names the first one. */
  lemma {:induction false} DictFails(entries: seq<string>, split: Split)
    ensures Dict(entries, split).Failure? <==> exists k :: 0 <= k < |entries| && split(entries[k]).None?
    ensures Dict(entries, split).Failure? ==> exists k :: (0 <= k < |entries| && split(entries[k]).None?
      && Dict(entries, split).error == Unsplittable(entries[k])
      && forall j :: 0 <= j < k ==> split(entries[j]).Some?)
    decreases |entries|
  {
    if entries != [] {
      var n := |entries|;
      var front := entries[..n - 1];
      DictFails(front, split);
      assert forall k :: 0 <= k < n - 1 ==> front[k] == entries[k];
    }
  }

  /**
   * On success the dictionary has a key exactly for the names of the
   * entries, and each value is the version of the last entry with that
   * name.
   */
  lemma {:induction false} DictLastWins(entries: seq<string>, split: Split)
    ensures Dict(entries, split).Success? ==> forall name :: name in Dict(entries, split).value <==>
      exists k :: 0 <= k < |entries| && split(entries[k]).Some? && split(entries[k]).value.0 == name
    ensures Dict(entries, split).Success? ==> forall name :: name in Dict(entries, split).value ==>
      exists k :: (0 <= k < |entries| && split(entries[k]) == Some((name, Dict(entries, split).value[name]))
        && forall j :: k < j < |entries| ==> split(entries[j]).None? || split(entries[j]).value.0 != name)
    decreases |entries|
  {
    if entries != [] && Dict(entries, split).Success? {
      var n := |entries|;
      var front := entries[..n - 1];
      DictLastWins(front, split);
      assert forall k :: 0 <= k < n - 1 ==> front[k] == entries[k];
      var prev := Dict(front, split).value;
      var d := Dict(entries, split).value;
      var last := split(entries[n - 1]).value;
      assert d == prev[last.0 := last.1];
      forall name | name in d
        ensures exists k :: (0 <= k < n && split(entries[k]) == Some((name, d[name]))
          && forall j :: k < j < n ==> split(entries[j]).None? || split(entries[j]).value.0 != name)
      {
        if name == last.0 {
          assert split(entries[n - 1]) == Some((name, d[name]));
        } else {
          var k :| 0 <= k < n - 1 && split(front[k]) == Some((name, prev[name]))
            && forall j :: k < j < n - 1 ==> split(front[j]).None? || split(front[j]).value.0 != name;
          assert split(entries[k]) == Some((name, d[name]));
        }
      }
    }
  }

  /** On success every key and its version make up one of the entries. */
  lemma DictReconstructs(entries: seq<string>)
    ensures Dict(entries, NameVersion).Success? ==>
      forall name :: name in Dict(entries, NameVersion).value ==> name + "-" + Dict(entries, NameVersion).value[name] in entries
  {
    DictLastWins(entries, NameVersion);
    if Dict(entries, NameVersion).Success? {
      var d := Dict(entries, NameVersion).value;
      forall name | name in d
        ensures name + "-" + d[name] in entries
      {
        var k :| 0 <= k < |entries| && NameVersion(entries[k]) == Some((name, d[name]))
          && forall j :: k < j < |entries| ==> NameVersion(entries[j]).None? || NameVersion(entries[j]).value.0 != name;
        assert entries[k] == name + "-" + d[name];
      }
    }
  }

  // ----- The comparisons -----

  /** The arguments of one `compare` coroutine. */
  datatype Task = Task(pkg: string, kojiver: string, py39ver: string)

  /**
   * The loop over the packages of `main`: a package without a Python 3.9
   * entry is passed over, the first one without a Koji entry raises.
   */
  function Tasks(pkgs: seq<string>, kojidict: map<string, string>, py39dict: map<string, string>): Result<seq<Task>, Error>
    decreases |pkgs|
  {
    if pkgs == [] then Success([])
    else
      var prev := Tasks(pkgs[..|pkgs| - 1], kojidict, py39dict);
      var pkg := pkgs[|pkgs| - 1];
      if prev.Failure? || pkg !in py39dict then prev
      else if pkg !in kojidict then Failure(NoKojiBuild(pkg))
      else Success(prev.value + [Task(pkg, kojidict[pkg], py39dict[pkg])])
  }

  /** A package of the loop that has a Python 3.9 entry but no Koji one. */
  predicate Missing(pkg: string, kojidict: map<string, string>, py39dict: map<string, string>)
  {
    pkg in py39dict && pkg !in kojidict
  }

  /**
   * The loop fails exactly when a package with a Python 3.9 entry has no
   * Koji entry, naming the first such package. Otherwise there is one task
   * per package with a Python 3.9 entry, in the order of the loop, with
   * the two versions of that package.
   */
  lemma {:induction false} TasksRule(pkgs: seq<string>, kojidict: map<string, string>, py39dict: map<string, string>)
    ensures Tasks(pkgs, kojidict, py39dict).Failure? <==> exists k :: 0 <= k < |pkgs| && Missing(pkgs[k], kojidict, py39dict)
    ensures Tasks(pkgs, kojidict, py39dict).Failure? ==>
      exists k :: (0 <= k < |pkgs| && Missing(pkgs[k], kojidict, py39dict)
        && Tasks(pkgs, kojidict, py39dict).error == NoKojiBuild(pkgs[k])
        && forall j :: 0 <= j < k ==> !Missing(pkgs[j], kojidict, py39dict))
    ensures Tasks(pkgs, kojidict, py39dict).Success? ==>
      var tasks := Tasks(pkgs, kojidict, py39dict).value;
      && (forall t :: t in tasks ==> (t.pkg in kojidict && t.pkg in py39dict
            && t == Task(t.pkg, kojidict[t.pkg], py39dict[t.pkg])))
      && (forall p :: (exists t :: t in tasks && t.pkg == p) <==> p in pkgs && p in py39dict)
    decreases |pkgs|
  {
    if pkgs != [] {
      var n := |pkgs|;
      var front := pkgs[..n - 1];
      TasksRule(front, kojidict, py39dict);
      assert forall k :: 0 <= k < n - 1 ==> front[k] == pkgs[k];
      assert forall p :: p in pkgs <==> p in front || p == pkgs[n - 1];
      var r := Tasks(pkgs, kojidict, py39dict);
      if r.Success? && pkgs[n - 1] in py39dict {
        var prev := Tasks(front, kojidict, py39dict).value;
        assert r.value == prev + [Task(pkgs[n - 1], kojidict[pkgs[n - 1]], py39dict[pkgs[n - 1]])];
        assert forall t :: t in r.value <==> t in prev || t == r.value[|r.value| - 1];
      }
    }
  }

  /** The tasks come in the order of the packages: for sorted packages they are sorted by name. */
  lemma {:induction false} TasksInOrder(pkgs: seq<string>, kojidict: map<string, string>, py39dict: map<string, string>)
    requires Sorting.Increasing(pkgs, Strings.StrLt)
    ensures Tasks(pkgs, kojidict, py39dict).Success? ==>
      var tasks := Tasks(pkgs, kojidict, py39dict).value;
      forall i, j :: 0 <= i < j < |tasks| ==> Strings.StrLt(tasks[i].pkg, tasks[j].pkg)
    decreases |pkgs|
  {
    if pkgs != [] {
      var n := |pkgs|;
      var front := pkgs[..n - 1];
      TasksInOrder(front, kojidict, py39dict);
      TasksRule(front, kojidict, py39dict);
      var r := Tasks(pkgs, kojidict, py39dict);
      if r.Success? && pkgs[n - 1] in py39dict {
        var prev := Tasks(front, kojidict, py39dict).value;
        forall i | 0 <= i < |prev|
          ensures Strings.StrLt(prev[i].pkg, pkgs[n - 1])
        {
          assert prev[i] in prev;
          var k :| 0 <= k < n - 1 && front[k] == prev[i].pkg;
          assert pkgs[k] == prev[i].pkg;
        }
      }
    }
  }

  /** The loop of `main` that collects the coroutines, one `compare` call per package with a Python 3.9 entry. */
  method CollectTasks(python38: set<string>, kojidict: map<string, string>, py39dict: map<string, string>)
    returns (r: Result<seq<Task>, Error>)
    ensures r == Tasks(Sorting.SortedStrings(python38), kojidict, py39dict)
  {
    var pkgs := Sorting.SortedStrings(python38);
    var tasks := [];
    for i := 0 to |pkgs|
      invariant Tasks(pkgs[..i], kojidict, py39dict) == Success(tasks)
    {
      TasksStep(pkgs, kojidict, py39dict, i);
      var pkg := pkgs[i];
      if pkg in py39dict {
        if pkg !in kojidict {
          TasksStop(pkgs, kojidict, py39dict, i + 1);
          return Failure(NoKojiBuild(pkg));
        }
        tasks := tasks + [Task(pkg, kojidict[pkg], py39dict[pkg])];
      }
    }
    assert pkgs[..|pkgs|] == pkgs;
    return Success(tasks);
  }

  /** The loop over one more package is one more pass. */
  lemma TasksStep(pkgs: seq<string>, kojidict: map<string, string>, py39dict: map<string, string>, i: nat)
    requires i < |pkgs|
    ensures var prev := Tasks(pkgs[..i], kojidict, py39dict);
      var pkg := pkgs[i];
      Tasks(pkgs[..i + 1], kojidict, py39dict)
        == if prev.Failure? || pkg !in py39dict then prev
           else if pkg !in kojidict then Failure(NoKojiBuild(pkg))
           else Success(prev.value + [Task(pkg, kojidict[pkg], py39dict[pkg])])
  {
    assert pkgs[..i + 1][..i] == pkgs[..i];
  }

  /** A failure in the first `i` packages is the failure of the whole loop. */
  lemma {:induction false} TasksStop(pkgs: seq<string>, kojidict: map<string, string>, py39dict: map<string, string>, i: nat)
    requires i <= |pkgs| && Tasks(pkgs[..i], kojidict, py39dict).Failure?
    ensures Tasks(pkgs, kojidict, py39dict) == Tasks(pkgs[..i], kojidict, py39dict)
    decreases |pkgs|
  {
    if i < |pkgs| {
      var front := pkgs[..|pkgs| - 1];
      assert front[..i] == pkgs[..i];
      TasksStop(front, kojidict, py39dict, i);
    } else {
      assert pkgs[..i] == pkgs;
    }
  }

  /** The names whose comparison exits with 11. */
  function Older(tasks: seq<Task>, vercmp: Vercmp): set<string>
  {
    set t | t in tasks && vercmp(t.kojiver, t.py39ver).code == OLDER :: t.pkg
  }

  /** `f'{pkg: <30} {stdout.decode().strip()}'`: what `compare` prints for one comparison. */
  function ComparisonLine(t: Task, vercmp: Vercmp): string
  {
    Strings.LeftJustify(t.pkg, 30) + " " + Strings.Strip(vercmp(t.kojiver, t.py39ver).stdout)
  }

  /**
   * The comparison line is the package name, then spaces up to column 30
   * and at least one, then the stripped output of `rpmdev-vercmp`.
   */
  lemma ComparisonLineLayout(t: Task, vercmp: Vercmp)
    ensures var line := ComparisonLine(t, vercmp);
      var width := if |t.pkg| < 30 then 30 else |t.pkg|;
      && |line| > width
      && Strings.StartsWith(line, t.pkg)
      && (forall i :: |t.pkg| <= i <= width ==> line[i] == ' ')
      && line[width + 1..] == Strings.Strip(vercmp(t.kojiver, t.py39ver).stdout)
  {
  }

  /** The lines the comparisons print, in task order. */
  function ComparisonLines(tasks: seq<Task>, vercmp: Vercmp): seq<string>
  {
    Each(tasks, t => ComparisonLine(t, vercmp))
  }

  /** `line` of every task, in task order. */
  function Each(tasks: seq<Task>, line: Task -> string): seq<string>
  {
    if tasks == [] then []
    else Each(tasks[..|tasks| - 1], line) + [line(tasks[|tasks| - 1])]
  }

  lemma {:induction false} EachRule(tasks: seq<Task>, line: Task -> string)
    ensures |Each(tasks, line)| == |tasks|
    ensures forall k :: 0 <= k < |tasks| ==> Each(tasks, line)[k] == line(tasks[k])
  {
    if tasks != [] {
      var front := tasks[..|tasks| - 1];
      EachRule(front, line);
      assert forall k :: 0 <= k < |front| ==> tasks[k] == front[k];
    }
  }

  /** One line per comparison, in task order, each starting with its package. */
  lemma ComparisonLinesRule(tasks: seq<Task>, vercmp: Vercmp)
    ensures |ComparisonLines(tasks, vercmp)| == |tasks|
    ensures forall k :: 0 <= k < |tasks| ==> ComparisonLines(tasks, vercmp)[k] == ComparisonLine(tasks[k], vercmp)
  {
    EachRule(tasks, t => ComparisonLine(t, vercmp));
  }

  /** The shared `todo` set the `compare` coroutines add to, and the lines they print. */
  class Todo {
    var names: set<string>
    var printed: seq<string>

    constructor ()
      ensures names == {} && printed == []
    {
      names := {};
      printed := [];
    }

    /** `compare`: print the comparison, and add the package when `rpmdev-vercmp` exits with 11. */
    method Compare(t: Task, vercmp: Vercmp)
      modifies this
      ensures names == old(names) + (if vercmp(t.kojiver, t.py39ver).code == OLDER then {t.pkg} else {})
      ensures printed == old(printed) + [ComparisonLine(t, vercmp)]
    {
      var answer := vercmp(t.kojiver, t.py39ver);
      printed := printed + [Strings.LeftJustify(t.pkg, 30) + " " + Strings.Strip(answer.stdout)];
      if answer.code == OLDER {
        names := names + {t.pkg};
      }
    }

    /** `asyncio.gather(*tasks)`: run every comparison, in task order. */
    method Gather(tasks: seq<Task>, vercmp: Vercmp)
      modifies this
      ensures names == old(names) + Older(tasks, vercmp)
      ensures printed == old(printed) + ComparisonLines(tasks, vercmp)
    {
      for i := 0 to |tasks|
        invariant names == old(names) + Older(tasks[..i], vercmp)
        invariant printed == old(printed) + ComparisonLines(tasks[..i], vercmp)
      {
        Compare(tasks[i], vercmp);
        OlderStep(tasks, i, vercmp);
      }
      assert tasks[..|tasks|] == tasks;
    }
  }

  /** One more comparison adds its package when it exits with 11. */
  lemma OlderStep(tasks: seq<Task>, i: nat, vercmp: Vercmp)
    requires i < |tasks|
    ensures Older(tasks[..i + 1], vercmp)
      == Older(tasks[..i], vercmp) + (if vercmp(tasks[i].kojiver, tasks[i].py39ver).code == OLDER then {tasks[i].pkg} else {})
    ensures ComparisonLines(tasks[..i + 1], vercmp) == ComparisonLines(tasks[..i], vercmp) + [ComparisonLine(tasks[i], vercmp)]
  {
    assert tasks[..i + 1][..i] == tasks[..i];
    assert tasks[..i + 1] == tasks[..i] + [tasks[i]];
  }

  /**
   * The selected names are the Python 3.8 packages that have an entry in
   * both dictionaries and whose Koji version `rpmdev-vercmp` finds newer
   * than the Python 3.9 one. So they are all Python 3.8 packages with a
   * Python 3.9 entry.
   */
  lemma TodoRule(python38: set<string>, kojidict: map<string, string>, py39dict: map<string, string>, vercmp: Vercmp)
    ensures var r := Tasks(Sorting.SortedStrings(python38), kojidict, py39dict);
      r.Success? ==>
        && Older(r.value, vercmp) == set p | p in python38 && p in py39dict && p in kojidict && vercmp(kojidict[p], py39dict[p]).code == OLDER
        && Older(r.value, vercmp) <= python38 * py39dict.Keys
  {
    var pkgs := Sorting.SortedStrings(python38);
    TasksRule(pkgs, kojidict, py39dict);
    var r := Tasks(pkgs, kojidict, py39dict);
    if r.Success? {
      var want := set p | p in python38 && p in py39dict && p in kojidict && vercmp(kojidict[p], py39dict[p]).code == OLDER;
      forall p | p in want
        ensures p in Older(r.value, vercmp)
      {
        var t :| t in r.value && t.pkg == p;
      }
    }
  }

  /** What the script prints last: the selected names, sorted, one per line. */
  function Report(todo: set<string>): (lines: seq<string>)
    ensures Sorting.Increasing(lines, Strings.StrLt)
    ensures forall x :: x in lines <==> x in todo
    ensures |lines| == |todo|
  {
    Sorting.SortedStrings(todo)
  }

  /**
   * `main`: build both dictionaries, collect the comparisons and run them,
   * then print an empty line and the selected names. An exception stops the
   * script before any comparison runs. `r` is the standard output, line by
   * line: one line per comparison, in task order, the empty line and the
   * names.
   */
  method Run(python38: set<string>, kojirepo: seq<string>, py39repo: seq<string>, vercmp: Vercmp)
    returns (r: Result<seq<string>, Error>)
    ensures var kd := Dict(kojirepo, NameVersion);
      var pd := Dict(py39repo, NameVersion);
      && (kd.Failure? ==> r == Failure(kd.error))
      && (kd.Success? && pd.Failure? ==> r == Failure(pd.error))
      && (kd.Success? && pd.Success? ==>
            var tasks := Tasks(Sorting.SortedStrings(python38), kd.value, pd.value);
            && (tasks.Failure? ==> r == Failure(tasks.error))
            && (tasks.Success? ==>
                  r == Success(ComparisonLines(tasks.value, vercmp) + [""] + Report(Older(tasks.value, vercmp)))))
  {
    var kojidict := Dict(kojirepo, NameVersion);
    if kojidict.Failure? {
      return Failure(kojidict.error);
    }
    var py39dict := Dict(py39repo, NameVersion);
    if py39dict.Failure? {
      return Failure(py39dict.error);
    }
    var tasks := CollectTasks(python38, kojidict.value, py39dict.value);
    if tasks.Failure? {
      return Failure(tasks.error);
    }
    var todo := new Todo();
    todo.Gather(tasks.value, vercmp);
    assert todo.printed == ComparisonLines(tasks.value, vercmp);
    assert todo.names == Older(tasks.value, vercmp);
    return Success(todo.printed + [""] + Report(todo.names));
  }
}
