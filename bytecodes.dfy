/**
 * bytecodes.py: for every source package that ships Python 3.8 bytecode,
 * ask Koji when its build completed and sort the package names into three
 * sets. `done` holds those built after the late cut-off. `inspection` holds
 * those built only after the early one, which need a manual look.
 * `torebuild` holds the others. `processed` is their union and is consulted
 * before any query. The sets are saved sorted at the end.
 */
module Bytecodes {
  import opened Wrappers
  import Strings
  import Sorting
  import Numbers

  /** The `--after` times of the two Koji queries. */
  const LATE_CUTOFF := "2019-08-31 23:59:59"
  const EARLY_CUTOFF := "2019-08-31 16:11:41"

  /** The output lines of `koji list-builds --package <name> --after <time> ...`. */
  type Koji = (string, string) -> seq<string>

  // ----- Names -----

  /** `sep.join(s.split(sep)[:-2])`: `s` without its last two `c`-fields, empty when it has fewer than three. */
  function DropTwo(s: string, c: char): string
  {
    var ps := Strings.Split(s, c);
    if |ps| <= 2 then "" else Strings.Join(ps[..|ps| - 2], c)
  }

  /**
   * Dropping the last two fields is `s.rsplit(c, 2)[0]` when `s` has two
   * separators, and the empty string otherwise.
   */
  lemma DropTwoIsRSplit(s: string, c: char)
    ensures Strings.RSplitTwo(s, c).None? ==> DropTwo(s, c) == ""
    ensures Strings.RSplitTwo(s, c).Some? ==> DropTwo(s, c) == Strings.RSplitTwo(s, c).value.0
  {
    var n := |Strings.Split(s, c)|;
    Strings.SplitCount(s, c);
    if n > 2 {
      DropTwoOfThree(s, c);
    } else if n == 2 {
      SplitOfHead(s, c);
      Strings.SplitCount(Strings.RPartition(s, c).head, c);
    }
  }

  /** With three fields or more, both drop the text from the second-to-last separator on. */
  lemma DropTwoOfThree(s: string, c: char)
    requires |Strings.Split(s, c)| > 2
    ensures Strings.RSplitTwo(s, c).Some? && DropTwo(s, c) == Strings.RSplitTwo(s, c).value.0
  {
    var ps := Strings.Split(s, c);
    var h := Strings.RPartition(s, c).head;
    Strings.SplitCount(s, c);
    SplitOfHead(s, c);
    HeadDrop(h, c, ps);
    var second := Strings.RPartition(h, c);
    assert Strings.RSplitTwo(s, c) == Some((second.head, second.tail, Strings.RPartition(s, c).tail));
  }

  /** When `h` splits into all but the last of at least three fields, joining all but its own last field gives its head. */
  lemma HeadDrop(h: string, c: char, ps: seq<string>)
    requires |ps| > 2 && Strings.Split(h, c) == ps[..|ps| - 1]
    ensures c in h && Strings.Join(ps[..|ps| - 2], c) == Strings.RPartition(h, c).head
  {
    Strings.SplitCount(h, c);
    Strings.DropLastField(h, c);
    TakeTake(ps, |ps| - 1, |ps| - 2);
  }

  /** A prefix of a prefix is a prefix. */
  lemma TakeTake<T>(a: seq<T>, i: nat, j: nat)
    requires j <= i <= |a|
    ensures a[..i][..j] == a[..j]
  {
  }

  /** The text before the last separator splits into all fields but the last. */
  lemma SplitOfHead(s: string, c: char)
    requires |Strings.Split(s, c)| >= 2
    ensures var ps := Strings.Split(s, c);
      Strings.Split(Strings.RPartition(s, c).head, c) == ps[..|ps| - 1]
  {
    var ps := Strings.Split(s, c);
    Strings.SplitCount(s, c);
    Strings.DropLastField(s, c);
    var front := ps[..|ps| - 1];
    assert forall k :: 0 <= k < |front| ==> c !in front[k] by {
      forall k | 0 <= k < |front|
        ensures c !in front[k]
      {
        assert front[k] == ps[k];
      }
    }
    Strings.SplitJoin(front, c);
  }

  /** `'.'.join(pkg.split('.')[:-2])`: the package file name without `.<arch>.rpm`. */
  function Nevr(pkg: string): string
  {
    DropTwo(pkg, '.')
  }

  /** `'-'.join(nevr.split('-')[:-2])`: the name without `-<version>-<release>`. */
  function Name(nevr: string): string
  {
    DropTwo(nevr, '-')
  }

  /** A package line of the form `<name>-<version>-<release>.<arch>.rpm` gives back its NEVR and its name. */
  lemma NamesOfPackage(name: string, version: string, release: string, arch: string)
    requires '.' !in release && '.' !in arch
    requires '-' !in version && '-' !in release
    ensures Nevr(name + "-" + version + "-" + release + "." + arch + ".rpm") == name + "-" + version + "-" + release
    ensures Name(name + "-" + version + "-" + release) == name
  {
    var nevr := name + "-" + version + "-" + release;
    var pkg := nevr + "." + arch + ".rpm";
    assert pkg == nevr + ['.'] + arch + ['.'] + "rpm";
    Strings.RSplitTwoOf(nevr, arch, "rpm", '.');
    DropTwoIsRSplit(pkg, '.');
    assert nevr == name + ['-'] + version + ['-'] + release;
    Strings.RSplitTwoOf(name, version, release, '-');
    DropTwoIsRSplit(nevr, '-');
  }

  // ----- What `after` reads from Koji -----

  /**
   * `[a.split()[0] for a in lines if a]`: the first field of every
   * non-empty line. A non-empty line of blanks has no first field, which
   * raises `IndexError` in the comprehension: `None`.
   */
  function Fields(lines: seq<string>): Option<seq<string>>
  {
    if lines == [] then Some([])
    else
      var rest := Fields(lines[1..]);
      if lines[0] == "" then rest
      else
        var first := Strings.FirstField(lines[0]);
        if first.None? || rest.None? then None else Some([first.value] + rest.value)
  }

  /** Some non-empty line has `x` as its first field. */
  predicate Listed(lines: seq<string>, x: string)
  {
    exists k :: 0 <= k < |lines| && lines[k] != "" && Strings.FirstField(lines[k]) == Some(x)
  }

  /** Some non-empty line holds nothing but blanks. */
  predicate HasBlankLine(lines: seq<string>)
  {
    exists k :: 0 <= k < |lines| && lines[k] != "" && Strings.FirstField(lines[k]).None?
  }

  /**
   * `after` fails exactly when a non-empty output line is blank. Otherwise
   * a name is in its list exactly when it is the first field of some
   * non-empty line.
   */
  lemma {:induction false} FieldsRule(lines: seq<string>)
    ensures Fields(lines).None? <==> HasBlankLine(lines)
    ensures Fields(lines).Some? ==> forall x :: x in Fields(lines).value <==> Listed(lines, x)
  {
    if lines != [] {
      var rest := lines[1..];
      FieldsRule(rest);
      assert forall k :: 1 <= k < |lines| ==> lines[k] == rest[k - 1];
      if HasBlankLine(rest) {
        var k :| 0 <= k < |rest| && rest[k] != "" && Strings.FirstField(rest[k]).None?;
        assert lines[k + 1] == rest[k];
      }
      if Fields(lines).Some? {
        forall x | Listed(rest, x)
          ensures Listed(lines, x)
        {
          var k :| 0 <= k < |rest| && rest[k] != "" && Strings.FirstField(rest[k]) == Some(x);
          assert lines[k + 1] == rest[k];
        }
        forall x | Listed(lines, x)
          ensures x in Fields(lines).value
        {
          var k :| 0 <= k < |lines| && lines[k] != "" && Strings.FirstField(lines[k]) == Some(x);
          if k > 0 {
            assert Listed(rest, x);
          }
        }
      }
    }
  }

  // ----- One package -----

  /** Which set a new name goes into. */
  datatype Verdict = Done | Inspection | Torebuild

  /** The `IndexError` of `after(name, time)`: a blank line in Koji's answer. */
  datatype Failure = BlankLine(name: string, time: string)

  /**
   * Built after the late cut-off: done. Otherwise built after the early
   * one: inspection. Otherwise: to rebuild. The early query is only made
   * when the late one does not list the NEVR.
   */
  function Classify(nevr: string, name: string, koji: Koji): Result<Verdict, Failure>
  {
    var late := Fields(koji(name, LATE_CUTOFF));
    if late.None? then Failure(BlankLine(name, LATE_CUTOFF))
    else if nevr in late.value then Success(Done)
    else
      var early := Fields(koji(name, EARLY_CUTOFF));
      if early.None? then Failure(BlankLine(name, EARLY_CUTOFF))
      else if nevr in early.value then Success(Inspection)
      else Success(Torebuild)
  }

  /** The four sets of the script. */
  datatype Sets = Sets(done: set<string>, inspection: set<string>, torebuild: set<string>, processed: set<string>)

  /** `processed` is the union of the three verdict sets, and every name has one verdict only. */
  predicate Consistent(st: Sets)
  {
    && st.processed == st.done + st.inspection + st.torebuild
    && st.done * st.inspection == {}
    && st.done * st.torebuild == {}
    && st.inspection * st.torebuild == {}
  }

  /** The sets at the start: `done` as saved by an earlier run (empty without a saved file), the others empty. */
  function Initial(saved: Option<seq<string>>): (st: Sets)
    ensures Consistent(st)
    ensures st.inspection == {} && st.torebuild == {}
    ensures forall x :: x in st.done <==> saved.Some? && x in saved.value
  {
    var done := if saved.Some? then set x | x in saved.value else {};
    Sets(done, {}, {}, done)
  }

  /** Record the verdict for `name`. */
  function Record(st: Sets, name: string, v: Verdict): Sets
  {
    var processed := st.processed + {name};
    if v == Done then st.(done := st.done + {name}, processed := processed)
    else if v == Inspection then st.(inspection := st.inspection + {name}, processed := processed)
    else st.(torebuild := st.torebuild + {name}, processed := processed)
  }

  /** One pass of the loop for the package line `pkg`. */
  function Step(st: Sets, pkg: string, koji: Koji): Result<Sets, Failure>
  {
    var nevr := Nevr(pkg);
    var name := Name(nevr);
    if name in st.processed then Success(st)
    else
      var v := Classify(nevr, name, koji);
      if v.Failure? then Failure(v.error) else Success(Record(st, name, v.value))
  }

  /**
   * A name already processed is skipped without a query. A new name goes
   * into `done` exactly when the late query lists its NEVR, into
   * `inspection` exactly when only the early one does, and into
   * `torebuild` exactly when neither does; it becomes processed, and
   * nothing else changes. The pass fails exactly when a query it makes
   * answers with a blank line.
   */
  lemma StepRule(st: Sets, pkg: string, koji: Koji)
    requires Consistent(st)
    ensures var name := Name(Nevr(pkg));
      name in st.processed ==> Step(st, pkg, koji) == Success(st)
    ensures var nevr := Nevr(pkg);
      var name := Name(nevr);
      var late := koji(name, LATE_CUTOFF);
      var early := koji(name, EARLY_CUTOFF);
      name !in st.processed ==>
        && (Step(st, pkg, koji).Failure? <==>
              HasBlankLine(late) || (!Listed(late, nevr) && HasBlankLine(early)))
        && (Step(st, pkg, koji).Success? ==>
              var st' := Step(st, pkg, koji).value;
              && st'.processed == st.processed + {name}
              && (name in st'.done <==> Listed(late, nevr))
              && (name in st'.inspection <==> !Listed(late, nevr) && Listed(early, nevr))
              && (name in st'.torebuild <==> !Listed(late, nevr) && !Listed(early, nevr))
              && st'.done - {name} == st.done
              && st'.inspection - {name} == st.inspection
              && st'.torebuild - {name} == st.torebuild)
  {
    var nevr := Nevr(pkg);
    var name := Name(nevr);
    FieldsRule(koji(name, LATE_CUTOFF));
    FieldsRule(koji(name, EARLY_CUTOFF));
  }

  /** A pass keeps the sets consistent and only ever adds to them. */
  lemma StepConsistent(st: Sets, pkg: string, koji: Koji)
    requires Consistent(st)
    ensures Step(st, pkg, koji).Success? ==> Consistent(Step(st, pkg, koji).value) && Grows(st, Step(st, pkg, koji).value)
  {
  }

  /** Every set of `b` holds its counterpart of `a`. */
  predicate Grows(a: Sets, b: Sets)
  {
    a.done <= b.done && a.inspection <= b.inspection && a.torebuild <= b.torebuild && a.processed <= b.processed
  }

  // ----- The loop -----

  /** The sets after the loop and the exception that ended it, if any. */
  datatype Outcome = Outcome(sets: Sets, failure: Option<Failure>)

  /** The loop over the package lines: it stops at the first failing pass, with the sets as they were before it. */
  function Loop(st: Sets, pkgs: seq<string>, koji: Koji): Outcome
    decreases |pkgs|
  {
    if pkgs == [] then Outcome(st, None)
    else
      var prev := Loop(st, pkgs[..|pkgs| - 1], koji);
      if prev.failure.Some? then prev
      else
        var next := Step(prev.sets, pkgs[|pkgs| - 1], koji);
        if next.Failure? then Outcome(prev.sets, Some(next.error)) else Outcome(next.value, None)
  }

  /** A failure in the first `i` lines is the failure of the whole loop. */
  lemma {:induction false} LoopStops(st: Sets, pkgs: seq<string>, i: nat, koji: Koji)
    requires i <= |pkgs| && Loop(st, pkgs[..i], koji).failure.Some?
    ensures Loop(st, pkgs, koji) == Loop(st, pkgs[..i], koji)
    decreases |pkgs|
  {
    if i < |pkgs| {
      var front := pkgs[..|pkgs| - 1];
      assert front[..i] == pkgs[..i];
      LoopStops(st, front, i, koji);
    } else {
      assert pkgs[..i] == pkgs;
    }
  }

  /** The loop over one more line is one more pass. */
  lemma LoopStep(st: Sets, pkgs: seq<string>, i: nat, koji: Koji)
    requires i < |pkgs|
    ensures var prev := Loop(st, pkgs[..i], koji);
      prev.failure.None? ==>
        var next := Step(prev.sets, pkgs[i], koji);
        Loop(st, pkgs[..i + 1], koji)
          == if next.Failure? then Outcome(prev.sets, Some(next.error)) else Outcome(next.value, None)
  {
    assert pkgs[..i + 1][..i] == pkgs[..i];
  }

  /** The loop keeps the sets consistent and only adds to them. */
  lemma {:induction false} LoopConsistent(st: Sets, pkgs: seq<string>, koji: Koji)
    requires Consistent(st)
    ensures Consistent(Loop(st, pkgs, koji).sets) && Grows(st, Loop(st, pkgs, koji).sets)
    decreases |pkgs|
  {
    if pkgs != [] {
      var front := pkgs[..|pkgs| - 1];
      LoopConsistent(st, front, koji);
      StepConsistent(Loop(st, front, koji).sets, pkgs[|pkgs| - 1], koji);
    }
  }

  /** The name of a package line. */
  function NameOf(pkg: string): string
  {
    Name(Nevr(pkg))
  }

  /** The names of the package lines. */
  function NamesOf(pkgs: seq<string>): set<string>
  {
    set p | p in pkgs :: NameOf(p)
  }

  /** A pass that succeeds makes the name of its line processed, and no other. */
  lemma StepProcessed(st: Sets, pkg: string, koji: Koji)
    ensures Step(st, pkg, koji).Success? ==> Step(st, pkg, koji).value.processed == st.processed + {NameOf(pkg)}
  {
  }

  /**
   * When no pass fails, the processed names afterwards are exactly those
   * processed before and the names of all the lines.
   */
  lemma {:induction false} LoopCovers(st: Sets, pkgs: seq<string>, koji: Koji)
    ensures Loop(st, pkgs, koji).failure.None? ==>
      Loop(st, pkgs, koji).sets.processed == st.processed + NamesOf(pkgs)
    decreases |pkgs|
  {
    if pkgs == [] {
      assert NamesOf(pkgs) == {};
    } else {
      var front := pkgs[..|pkgs| - 1];
      var last := pkgs[|pkgs| - 1];
      assert pkgs == front + [last];
      assert NamesOf(pkgs) == NamesOf(front) + {NameOf(last)};
      LoopCovers(st, front, koji);
      StepProcessed(Loop(st, front, koji).sets, last, koji);
    }
  }

  /** The script's state: the four sets, updated in place by the loop. */
  class Tracker {
    var done: set<string>
    var inspection: set<string>
    var torebuild: set<string>
    var processed: set<string>

    function Current(): Sets
      reads this
    {
      Sets(done, inspection, torebuild, processed)
    }

    ghost predicate Valid()
      reads this
    {
      Consistent(Current())
    }

    /** Load `done` from the saved file (or start empty); `processed` starts as the union of the three sets. */
    constructor (saved: Option<seq<string>>)
      ensures Valid()
      ensures Current() == Initial(saved)
    {
      done := if saved.Some? then set x | x in saved.value else {};
      inspection := {};
      torebuild := {};
      processed := done;
    }

    /**
     * `for pkg in bar`: classify the name of each package line not seen yet.
     * The sets end as `Loop` says, and the failure that stops the loop, if
     * any, is returned.
     */
    method ProcessAll(pkgs: seq<string>, koji: Koji) returns (failure: Option<Failure>)
      requires Valid()
      modifies this
      ensures Valid()
      ensures Loop(old(Current()), pkgs, koji) == Outcome(Current(), failure)
    {
      for i := 0 to |pkgs|
        invariant Valid()
        invariant Loop(old(Current()), pkgs[..i], koji) == Outcome(Current(), None)
      {
        LoopStep(old(Current()), pkgs, i, koji);
        var nevr := Nevr(pkgs[i]);
        var name := Name(nevr);
        if name in processed {
          continue;
        }
        var late := Fields(koji(name, LATE_CUTOFF));
        if late.None? {
          LoopStops(old(Current()), pkgs, i + 1, koji);
          return Some(BlankLine(name, LATE_CUTOFF));
        }
        if nevr !in late.value {
          var early := Fields(koji(name, EARLY_CUTOFF));
          if early.None? {
            LoopStops(old(Current()), pkgs, i + 1, koji);
            return Some(BlankLine(name, EARLY_CUTOFF));
          }
          if nevr !in early.value {
            torebuild := torebuild + {name};
          } else {
            inspection := inspection + {name};
          }
        } else {
          done := done + {name};
        }
        processed := processed + {name};
      }
      assert pkgs[..|pkgs|] == pkgs;
      return None;
    }
  }

  // ----- The end of the run -----

  /** The closing messages: how many names were processed and how many went into each set. */
  function Messages(st: Sets): seq<string>
  {
    [ "Processed " + Numbers.IntToString(|st.processed|) + " packages.\n",
      Numbers.IntToString(|st.done|) + " packages were build with b4+",
      Numbers.IntToString(|st.inspection|) + " packages were built on 2019-08-31 and need manual inspection",
      Numbers.IntToString(|st.torebuild|) + " packages need to be rebuilt with b4+" ]
  }

  /** In a consistent state the processed count is the sum of the three others. */
  lemma ProcessedCount(st: Sets)
    requires Consistent(st)
    ensures |st.processed| == |st.done| + |st.inspection| + |st.torebuild|
  {
    assert st.done * st.inspection == {};
    assert |st.done + st.inspection| == |st.done| + |st.inspection|;
    assert (st.done + st.inspection) * st.torebuild == {};
  }

  /** What `bytecodes.json` gets: the three sets, each sorted. */
  datatype Saved = Saved(done: seq<string>, inspection: seq<string>, torebuild: seq<string>)

  function Save(st: Sets): Saved
  {
    Saved(Sorting.SortedStrings(st.done), Sorting.SortedStrings(st.inspection), Sorting.SortedStrings(st.torebuild))
  }

  /**
   * The saved lists are sorted. In a consistent state every processed name
   * is in exactly one of them, and nothing else is.
   */
  lemma SaveRule(st: Sets)
    requires Consistent(st)
    ensures var saved := Save(st);
      && Sorting.Increasing(saved.done, Strings.StrLt)
      && Sorting.Increasing(saved.inspection, Strings.StrLt)
      && Sorting.Increasing(saved.torebuild, Strings.StrLt)
      && (forall x :: x in st.processed <==> x in saved.done || x in saved.inspection || x in saved.torebuild)
      && (forall x :: !(x in saved.done && x in saved.inspection))
      && (forall x :: !(x in saved.done && x in saved.torebuild))
      && (forall x :: !(x in saved.inspection && x in saved.torebuild))
  {
    var saved := Save(st);
    forall x
      ensures !(x in saved.done && x in saved.inspection)
      ensures !(x in saved.done && x in saved.torebuild)
      ensures !(x in saved.inspection && x in saved.torebuild)
    {
      assert x in saved.done ==> x in st.done;
      assert x !in st.done * st.inspection && x !in st.done * st.torebuild && x !in st.inspection * st.torebuild;
    }
  }

  /**
   * The whole script: load, loop, report and save. A failing query ends
   * the run before anything is printed or saved.
   */
  method Run(saved: Option<seq<string>>, pkgs: seq<string>, koji: Koji) returns (r: Result<(seq<string>, Saved), Failure>)
    ensures var outcome := Loop(Initial(saved), pkgs, koji);
      && (r.Failure? <==> outcome.failure.Some?)
      && (r.Failure? ==> r.error == outcome.failure.value)
      && (r.Success? ==> r.value == (Messages(outcome.sets), Save(outcome.sets)))
  {
    var tracker := new Tracker(saved);
    var failure := tracker.ProcessAll(pkgs, koji);
    if failure.Some? {
      return Failure(failure.value);
    }
    var st := tracker.Current();
    return Success((Messages(st), Save(st)));
  }
}
